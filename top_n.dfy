/**
 * The `mapValues` stage: render a ranking queue as text, one page per line, by
 * polling it up to `TopN` times. Polling consumes the queue, and an ascending
 * queue yields its smallest counts first.
 */
module TopNews {
  import opened Records
  import opened Ranking
  import Regroup

  /** The number of polls per rendering. */
  const TopN: nat := 100

  function Min(a: int, b: int): (m: int)
  {
    if a <= b then a else b
  }

  /** The text built from `rs` in order: each record's page followed by a newline. */
  function Lines(rs: seq<ViewStats>): (text: string)
    ensures rs != [] ==> |text| > 0 && text[|text| - 1] == '\n'
  {
    if rs == [] then "" else Lines(rs[..|rs| - 1]) + rs[|rs| - 1].page + "\n"
  }

  /** Counts never decrease along `s`. */
  ghost predicate SortedByCount(s: seq<ViewStats>)
  {
    forall i, j :: 0 <= i < j < |s| ==> s[i].count <= s[j].count
  }

  /** No record of `ds` has a larger count than a record of `m`. */
  ghost predicate Below(ds: seq<ViewStats>, m: multiset<ViewStats>)
  {
    forall d, x :: d in ds && x in m ==> d.count <= x.count
  }

  /** Moving a minimal record of `m` to the end of `ds` keeps both orderings. */
  lemma DrainStep(ds: seq<ViewStats>, m: multiset<ViewStats>, r: ViewStats)
    requires SortedByCount(ds) && Below(ds, m)
    requires r in m && IsMinimal(r, m)
    ensures SortedByCount(ds + [r]) && Below(ds + [r], m - multiset{r})
    ensures multiset(ds + [r]) + (m - multiset{r}) == multiset(ds) + m
  {
    forall i, j | 0 <= i < j < |ds + [r]| ensures (ds + [r])[i].count <= (ds + [r])[j].count {
      if j == |ds| {
        assert (ds + [r])[i] in ds;
      }
    }
  }

  /** The number of occurrences of `c` in `s`. */
  function Occurrences(s: string, c: char): (n: nat)
    ensures n <= |s|
  {
    if s == [] then 0 else Occurrences(s[..|s| - 1], c) + (if s[|s| - 1] == c then 1 else 0)
  }

  /** `n` copies of `s`, one after the other. */
  function Repeat(s: string, n: nat): (r: string)
    ensures |r| == n * |s|
  {
    if n == 0 then "" else Repeat(s, n - 1) + s
  }

  /**
   * The top-N lambda. Polls `queue` at most `TopN` times, stops at the first
   * empty poll and appends each polled record's page and a newline. `drained`
   * is the sequence of polled records: min(TopN, size) of them, in
   * non-decreasing count order, none with a larger count than any record left,
   * and what is left is exactly the original minus what was polled.
   */
  method TopNewsText(queue: RankingQueue) returns (text: string, ghost drained: seq<ViewStats>)
    modifies queue
    ensures |drained| == Min(TopN, |old(queue.Contents())|)
    ensures text == Lines(drained)
    ensures multiset(drained) + queue.Contents() == old(queue.Contents())
    ensures |queue.Contents()| == |old(queue.Contents())| - |drained|
    ensures SortedByCount(drained)
    ensures Below(drained, queue.Contents())
  {
    text := "";
    drained := [];
    var i := 0;
    while i < TopN
      invariant 0 <= i <= TopN
      invariant |drained| == i
      invariant text == Lines(drained)
      invariant multiset(drained) + queue.Contents() == old(queue.Contents())
      invariant SortedByCount(drained)
      invariant Below(drained, queue.Contents())
    {
      ghost var before := queue.Contents();
      var record := queue.Poll();
      if record == None {
        break;
      }
      DrainStep(drained, before, record.value);
      drained := drained + [record.value];
      assert drained[..|drained| - 1] == drained[..i];
      text := text + record.value.page + "\n";
      i := i + 1;
    }
  }

  lemma {:induction false} OccurrencesAppend(a: string, b: string, c: char)
    ensures Occurrences(a + b, c) == Occurrences(a, c) + Occurrences(b, c)
    decreases |b|
  {
    if b != [] {
      assert (a + b)[..|a + b| - 1] == a + b[..|b| - 1];
      OccurrencesAppend(a, b[..|b| - 1], c);
    } else {
      assert a + b == a;
    }
  }

  /** When no page holds a newline, the text of `rs` has exactly |rs| lines. */
  lemma {:induction false} LinesCount(rs: seq<ViewStats>)
    requires forall i :: 0 <= i < |rs| ==> '\n' !in rs[i].page
    ensures Occurrences(Lines(rs), '\n') == |rs|
  {
    if rs != [] {
      var last := rs[|rs| - 1];
      LinesCount(rs[..|rs| - 1]);
      OccurrencesAppend(Lines(rs[..|rs| - 1]), last.page, '\n');
      OccurrencesAppend(Lines(rs[..|rs| - 1]) + last.page, "\n", '\n');
      assert Occurrences(last.page, '\n') == 0 by {
        PageWithoutNewline(last.page);
      }
    }
  }

  lemma {:induction false} PageWithoutNewline(s: string)
    requires '\n' !in s
    ensures Occurrences(s, '\n') == 0
  {
    if s != [] {
      assert s == s[..|s| - 1] + [s[|s| - 1]];
      PageWithoutNewline(s[..|s| - 1]);
    }
  }

  /**
   * Records made by the selector all carry the page literal "pageId", so the
   * rendered text of any such records is that literal line repeated.
   */
  lemma {:induction false} PlaceholderLines(rs: seq<ViewStats>)
    requires forall i :: 0 <= i < |rs| ==> rs[i].page == Regroup.PagePlaceholder
    ensures Lines(rs) == Repeat(Regroup.PagePlaceholder + "\n", |rs|)
  {
    if rs != [] {
      PlaceholderLines(rs[..|rs| - 1]);
    }
  }
}
