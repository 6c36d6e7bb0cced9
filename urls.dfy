/** is_url from nnio/utils.py: a string names a URL when it is one word with an http(s) prefix. */
module Urls {
  import opened Builtins

  const UrlMarkers: seq<string> := ["http://", "https://"]

  /** True when s starts with one of the markers, tried in order. */
  predicate StartsWithAny(s: string, markers: seq<string>)
    decreases |markers|
  {
    |markers| > 0 && (StartsWith(s, markers[0]) || StartsWithAny(s, markers[1..]))
  }

  predicate IsUrl(s: string) {
    if |Words(s)| != 1 then false else StartsWithAny(s, UrlMarkers)
  }

  /**
   * is_url holds exactly for the strings that start with "http://" or
   * "https://" and hold whitespace only as a trailing run (a trailing newline
   * is accepted; a leading or inner space is not).
   */
  lemma IsUrlMeaning(s: string)
    ensures IsUrl(s) <==>
      (StartsWith(s, "http://") || StartsWith(s, "https://")) && TrailingSpaceOnly(s)
  {
    assert StartsWithAny(s, UrlMarkers) <==> StartsWith(s, "http://") || StartsWith(s, "https://") by {
      assert UrlMarkers[1..][1..] == [];
    }
    if StartsWith(s, "http://") || StartsWith(s, "https://") {
      assert s[0] == 'h';
      SingleWord(s);
    }
  }
}
