/**
 * `extract_json`, the helper inside `generate_kql_from_nl` (app.py) that cuts the JSON
 * object out of the language model's free-text reply before it is decoded: everything
 * from the first `{` to the last `}`, or the whole reply when there is no such pair.
 */
module Extract {
  import opened Text

  /** Some `{` comes before some `}`. */
  predicate HasBracedSpan(text: string)
  {
    exists i, j | 0 <= i < j < |text| :: text[i] == '{' && text[j] == '}'
  }

  /** The cut taken when both braces are present in the right order (lines 34-37). */
  function ExtractJson(text: string): (r: string)
    ensures |r| <= |text|
    ensures r != text ==> |r| >= 2 && r[0] == '{' && r[|r| - 1] == '}'
  {
    var start := Find(text, '{');
    var end := RFind(text, '}');
    if start != -1 && end != -1 && end > start then text[start..end + 1] else text
  }

  /**
   * The reply is cut exactly when a `{` comes before a `}`, and the cut then runs from
   * the first `{` of the reply to its last `}`: nothing before it is a `{`, nothing after
   * it is a `}`. Otherwise the reply is returned as it is.
   */
  lemma ExtractJsonCut(text: string)
    ensures HasBracedSpan(text) <==>
      exists i, j | 0 <= i < j < |text| :: ExtractJson(text) == text[i..j + 1]
        && text[i] == '{' && text[j] == '}'
        && (forall k | 0 <= k < i :: text[k] != '{')
        && (forall k | j < k < |text| :: text[k] != '}')
    ensures !HasBracedSpan(text) ==> ExtractJson(text) == text
  {
    var start := Find(text, '{');
    var end := RFind(text, '}');
    if HasBracedSpan(text) {
      var i, j :| 0 <= i < j < |text| && text[i] == '{' && text[j] == '}';
      assert start != -1 && start <= i;
      assert end != -1 && end >= j;
      assert ExtractJson(text) == text[start..end + 1];
    }
  }

  /** Cutting an already cut reply changes nothing. */
  lemma ExtractJsonIdempotent(text: string)
    ensures ExtractJson(ExtractJson(text)) == ExtractJson(text)
  {
    var r := ExtractJson(text);
    if r != text {
      assert Find(r, '{') == 0;
      assert RFind(r, '}') == |r| - 1;
      assert r[0..|r|] == r;
    }
  }
}
