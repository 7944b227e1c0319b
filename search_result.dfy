/** A search hit: one view or job found on a CI server, with the credentials to reach it. */
module SearchResultModel {
  import opened Text

  /**
   * `_class` is the server's dotted type name; `result_type` is derived from it.
   * The other four fields are stored exactly as given.
   */
  datatype SearchResult = SearchResult(cls: string, name: string, url: string, username: string, apiToken: string)
  {
    /** `_class.split(".")[-1]` */
    function ResultType(): string {
      LastSegment(cls)
    }

    /** `str(result)`, the text offered in the selection list. */
    function Display(): (s: string)
      ensures |s| == |url| + 3 + |name| && StartsWith(s, url)
      ensures s[|url|..|url| + 3] == " - " && s[|url| + 3..] == name
    {
      url + " - " + name
    }
  }

  /**
   * The last piece of `s.split(".")`: the longest suffix of `s` without a dot.
   * It is the whole of `s` when `s` has no dot and empty when `s` ends in one.
   */
  function LastSegment(s: string): (r: string)
    ensures '.' !in r
    ensures |r| <= |s| && r == s[|s| - |r|..]
    ensures |r| == |s| || s[|s| - |r| - 1] == '.'
    ensures '.' !in s ==> r == s
    decreases |s|
  {
    if s == [] then []
    else if s[|s| - 1] == '.' then []
    else
      var init := s[..|s| - 1];
      var p := LastSegment(init);
      assert init[|init| - |p|..] == p;
      assert s[|s| - |p| - 1..] == p + [s[|s| - 1]];
      assert |p| == |init| || s[|s| - |p| - 2] == init[|init| - |p| - 1];
      assert '.' !in s ==> '.' !in init;
      p + [s[|s| - 1]]
  }

  /** Whatever precedes the last dot does not affect the type name. */
  lemma LastSegmentAfterDot(prefix: string, segment: string)
    requires '.' !in segment
    ensures LastSegment(prefix + "." + segment) == segment
  {
    var s := prefix + "." + segment;
    var r := LastSegment(s);
    assert s[|s| - |segment| - 1] == '.';
    assert s[|s| - |segment|..] == segment;
  }

  /** A hit whose URL or name contains `needle` shows `needle` in its selection text. */
  lemma DisplayShows(r: SearchResult, needle: string)
    requires Contains(r.url, needle) || Contains(r.name, needle)
    ensures Contains(r.Display(), needle)
  {
    var s := r.Display();
    ContainsIff(s, needle);
    if Contains(r.url, needle) {
      ContainsIff(r.url, needle);
      var i :| OccursAt(r.url, needle, i);
      assert s == r.url + (" - " + r.name);
      OccursInPrefix(r.url, " - " + r.name, needle, i);
    } else {
      ContainsIff(r.name, needle);
      var i :| OccursAt(r.name, needle, i);
      OccursInConcat(r.url + " - ", r.name, needle, i);
    }
  }
}
