/**
  The JSON-shaped values the extractor receives from the language model and
  passes around as `Dict[str, Any]`, with Python's truthiness and `len`.
 */
module Values {

  /** A parsed JSON value. Floating-point numbers are not modelled. */
  datatype Value =
    | Null
    | Bool(b: bool)
    | Int(i: int)
    | Str(s: string)
    | List(items: seq<Value>)
    | Dict(fields: map<string, Value>)

  /** A program, instructor or schedule entry: a `Dict[str, Any]`. */
  type Record = map<string, Value>

  /** The outcome of Python code that may raise (`AttributeError`, `TypeError`,
      `IndexError`, `ZeroDivisionError`) on a value of an unexpected type. */
  datatype Result<+T> = Ok(value: T) | Raised

  datatype Option<+T> = None | Some(value: T)

  /** `bool(v)`. */
  predicate Truthy(v: Value)
  {
    match v
    case Null => false
    case Bool(b) => b
    case Int(i) => i != 0
    case Str(s) => s != []
    case List(items) => items != []
    case Dict(fields) => fields != map[]
  }

  /** `r.get(k)`: the value under `k`, or `None`. */
  function Get(r: Record, k: string): (v: Value)
    ensures k !in r ==> v == Null
    ensures k in r ==> v == r[k]
  {
    if k in r then r[k] else Null
  }

  /** `r.get(k, d)`. */
  function GetOr(r: Record, k: string, d: Value): (v: Value)
    ensures k !in r ==> v == d
    ensures k in r ==> v == r[k]
  {
    if k in r then r[k] else d
  }

  /** `len(v)`, which raises `TypeError` on `None`, booleans and numbers. */
  function Len(v: Value): (n: Result<nat>)
    ensures n.Raised? <==> v.Null? || v.Bool? || v.Int?
    ensures n.Ok? ==> (n.value > 0 <==> Truthy(v))
  {
    match v
    case Str(s) => Ok(|s|)
    case List(items) => Ok(|items|)
    case Dict(fields) => Ok(|fields|)
    case _ => Raised
  }

  /** Values Python can put in a `set` (lists and dicts are unhashable). */
  predicate Hashable(v: Value)
  {
    !v.List? && !v.Dict?
  }
}
