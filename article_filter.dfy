/** The first stage: keep only the page views of articles. */
module ArticleFilter {
  import opened Records

  /** The flag that marks a page view as an article view. */
  const ArticleFlag: string := "ART"

  /** `sub` occurs in `s` starting at index `i`. */
  ghost predicate OccursAt(s: string, sub: string, i: int)
  {
    0 <= i && i + |sub| <= |s| && s[i..i + |sub|] == sub
  }

  /** Java's `String.contains`: some substring of `s` equals `sub`. */
  function Contains(s: string, sub: string): (b: bool)
    ensures b <==> exists i :: OccursAt(s, sub, i)
    decreases |s|
  {
    if |sub| > |s| then
      false
    else if s[..|sub|] == sub then
      assert OccursAt(s, sub, 0);
      true
    else
      var rest := Contains(s[1..], sub);
      assert forall j :: OccursAt(s[1..], sub, j) <==> OccursAt(s, sub, j + 1) by {
        forall j ensures OccursAt(s[1..], sub, j) <==> OccursAt(s, sub, j + 1) {
          if 0 <= j && j + |sub| <= |s| - 1 {
            assert s[1..][j..j + |sub|] == s[j + 1..j + 1 + |sub|];
          }
        }
      }
      assert !OccursAt(s, sub, 0);
      assert (exists i :: OccursAt(s, sub, i)) ==> exists j :: OccursAt(s[1..], sub, j) by {
        if i :| OccursAt(s, sub, i) {
          assert OccursAt(s[1..], sub, i - 1);
        }
      }
      rest
  }

  /** `isArticle`: a page view is an article view when its flags contain "ART". */
  function IsArticle(r: PageView): (b: bool)
    ensures b <==> exists i :: OccursAt(r.flags, ArticleFlag, i)
  {
    Contains(r.flags, ArticleFlag)
  }

  /** `r` is `s` with some elements left out, the rest kept in their order. */
  ghost predicate IsSubsequence(r: seq<PageView>, s: seq<PageView>)
    decreases |s|
  {
    if r == [] then true
    else if s == [] then false
    else (r[0] == s[0] && IsSubsequence(r[1..], s[1..])) || IsSubsequence(r, s[1..])
  }

  /**
   * The `filter` step: the article views among `views`, in their order. Each
   * article view is kept as often as it occurs; every other view is dropped.
   */
  function FilterArticles(views: seq<PageView>): (r: seq<PageView>)
    ensures |r| <= |views|
    ensures IsSubsequence(r, views)
    ensures forall i :: 0 <= i < |r| ==> IsArticle(r[i])
    ensures forall v :: multiset(r)[v] == if IsArticle(v) then multiset(views)[v] else 0
  {
    if views == [] then
      []
    else
      assert views == [views[0]] + views[1..];
      var rest := FilterArticles(views[1..]);
      if IsArticle(views[0]) then
        assert ([views[0]] + rest)[1..] == rest;
        [views[0]] + rest
      else
        rest
  }
}
