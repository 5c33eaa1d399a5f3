/** The `groupBy` selector: re-key a windowed article count by its industry. */
module Regroup {
  import opened Records

  /** The literal the selector writes into the `page` field. */
  const PagePlaceholder: string := "pageId"

  /** The literal the selector writes into the `industry` field. */
  const IndustryPlaceholder: string := "industryName"

  /**
   * Maps (windowed article, count) to (windowed industry, stats record). The
   * window is kept and the key becomes the article's industry. The record
   * carries the count, but its page and industry are the two fixed literals,
   * not the article's own values.
   */
  function Select(windowedArticle: Windowed<PageView>, count: int): (kv: (Windowed<string>, ViewStats))
    ensures kv.0.window == windowedArticle.window
    ensures kv.0.key == windowedArticle.key.industry
    ensures kv.1.count == count
    ensures kv.1.page == PagePlaceholder && kv.1.industry == IndustryPlaceholder
  {
    var windowedIndustry := Windowed(windowedArticle.key.industry, windowedArticle.window);
    var viewStats := ViewStats(PagePlaceholder, IndustryPlaceholder, count);
    (windowedIndustry, viewStats)
  }

  /** Articles of one industry counted in one window land in the same ranking. */
  lemma SameIndustrySameKey(a: Windowed<PageView>, b: Windowed<PageView>, countA: int, countB: int)
    requires a.window == b.window && a.key.industry == b.key.industry
    ensures Select(a, countA).0 == Select(b, countB).0
  {
  }

  /**
   * Because of the fixed literals, the record depends on the count alone: two
   * different articles with equal counts give equal records.
   */
  lemma RecordIgnoresArticle(a: Windowed<PageView>, b: Windowed<PageView>, count: int)
    ensures Select(a, count).1 == Select(b, count).1
  {
  }
}
