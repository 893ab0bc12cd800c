/**
  The brace slicing of `_parse_ai_response`: the language model's reply is cut
  from its first '{' to its last '}' before it is parsed as JSON.
 */
module Responses {
  import opened Values
  import opened Text

  /** `text[text.find('{'):text.rfind('}') + 1]` when that range is non-empty and starts at a '{'. */
  function BraceSlice(text: string): (r: Option<string>)
    ensures r.Some? <==> exists i, j :: 0 <= i < j < |text| && text[i] == '{' && text[j] == '}'
    ensures r.Some? ==> exists a, b ::
      0 <= a < b <= |text| && r.value == text[a..b] && '{' !in text[..a] && '}' !in text[b..]
    ensures r.Some? ==> |r.value| >= 2 && r.value[0] == '{' && r.value[|r.value| - 1] == '}'
  {
    var start := Find(text, '{');
    var end := RFind(text, '}') + 1;
    if start >= 0 && end > start then
      assert text[start..end][0] == text[start];
      assert text[start..end][|text[start..end]| - 1] == text[end - 1];
      assert 0 <= start < end - 1 < |text| && text[start] == '{' && text[end - 1] == '}';
      assert '{' !in text[..start] && '}' !in text[end..];
      Some(text[start..end])
    else
      NoBracePair(text, start, end);
      None
  }

  /** Without a '{' before the last '}' there is no pair of braces in order. */
  lemma NoBracePair(text: string, start: int, end: int)
    requires start == Find(text, '{') && end == RFind(text, '}') + 1
    requires !(start >= 0 && end > start)
    ensures !exists i, j :: 0 <= i < j < |text| && text[i] == '{' && text[j] == '}'
  {
    if i, j :| 0 <= i < j < |text| && text[i] == '{' && text[j] == '}' {
      assert false;
    }
  }

  /** `_parse_ai_response`: the parsed slice, or `{}` when there is no slice or `json.loads` rejects it (`loads` answers `None`). */
  function ParseAIResponse(text: string, loads: string -> Option<Value>): (v: Value)
    ensures BraceSlice(text).None? ==> v == Dict(map[])
    ensures BraceSlice(text).Some? && loads(BraceSlice(text).value).None? ==> v == Dict(map[])
    ensures BraceSlice(text).Some? && loads(BraceSlice(text).value).Some? ==> v == loads(BraceSlice(text).value).value
  {
    match BraceSlice(text)
    case None => Dict(map[])
    case Some(json) =>
      match loads(json)
      case None => Dict(map[])
      case Some(v) => v
  }

  /** A JSON object with prose around it that holds no '{' before it and no '}' after it comes back whole. */
  lemma BraceSliceWrapped(before: string, json: string, after: string)
    requires |json| >= 2 && json[0] == '{' && json[|json| - 1] == '}'
    requires '{' !in before && '}' !in after
    ensures BraceSlice(before + json + after) == Some(json)
  {
    var text := before + json + after;
    var a, b := |before|, |before| + |json|;
    assert text[a] == '{' && text[b - 1] == '}';
    assert text[..a] == before;
    assert text[b..] == after;
    var start := Find(text, '{');
    assert start == a;
    var last := RFind(text, '}');
    assert last == b - 1;
    assert text[a..b] == json;
  }
}
