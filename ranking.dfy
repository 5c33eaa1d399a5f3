/**
 * The per-industry ranking: a priority queue of stats records, its comparator,
 * and the initializer, "add" and "remove" aggregators that build it.
 */
module Ranking {
  import opened Records

  const Int32Modulus: int := 0x1_0000_0000

  /** Java's narrowing cast `(int)` of an integer: keep the low 32 bits, signed. */
  function NarrowToInt(x: int): (r: int)
    ensures -0x8000_0000 <= r < 0x8000_0000
    ensures (x - r) % Int32Modulus == 0
  {
    var m := x % Int32Modulus;
    if m >= 0x8000_0000 then m - Int32Modulus else m
  }

  /**
   * The comparator as written: `(int) (o1.count - o2.count)`. The subtraction of
   * two longs wraps modulo 2^64 first; 2^32 divides 2^64, so that wrap leaves
   * the low 32 bits alone and only the narrowing is written out.
   */
  function NarrowedCompare(o1: ViewStats, o2: ViewStats): (r: int)
    ensures -0x8000_0000 <= r < 0x8000_0000
    ensures (o1.count - o2.count - r) % Int32Modulus == 0
  {
    NarrowToInt(o1.count - o2.count)
  }

  /**
   * The order the comparator evidently intends (as `Long.compare` would give):
   * ascending by count. The queue below is ordered by it.
   */
  function CompareCounts(o1: ViewStats, o2: ViewStats): (r: int)
    ensures r < 0 <==> o1.count < o2.count
    ensures r > 0 <==> o1.count > o2.count
  {
    if o1.count < o2.count then -1 else if o1.count == o2.count then 0 else 1
  }

  function Sign(x: int): (s: int)
  {
    if x < 0 then -1 else if x == 0 then 0 else 1
  }

  /** A count that an `int` difference of two counts cannot overflow. */
  ghost predicate CountFitsInt(r: ViewStats)
  {
    0 <= r.count < 0x8000_0000
  }

  /** When counts lie in [0, 2^31) the narrowed comparator orders as the intended one. */
  lemma NarrowedCompareAgrees(o1: ViewStats, o2: ViewStats)
    requires CountFitsInt(o1) && CountFitsInt(o2)
    ensures NarrowedCompare(o1, o2) == o1.count - o2.count
    ensures Sign(NarrowedCompare(o1, o2)) == CompareCounts(o1, o2)
  {
    var d := o1.count - o2.count;
    if d < 0 {
      assert d % Int32Modulus == d + Int32Modulus;
    } else {
      assert d % Int32Modulus == d;
    }
  }

  /**
   * With counts 2^31 and 0 the narrowed comparator calls each record smaller
   * than the other, so it is not a valid comparator for all longs.
   */
  lemma NarrowedCompareMisorders()
    ensures var big := ViewStats("p", "i", 0x8000_0000);
            var zero := ViewStats("p", "i", 0);
            big.count > zero.count &&
            NarrowedCompare(big, zero) < 0 && NarrowedCompare(zero, big) < 0
  {
    assert 0x8000_0000 % Int32Modulus == 0x8000_0000;
    assert (-0x8000_0000) % Int32Modulus == 0x8000_0000;
  }

  /** `r` has a count no larger than that of any element of `m`. */
  ghost predicate IsMinimal(r: ViewStats, m: multiset<ViewStats>)
  {
    forall x :: x in m ==> CompareCounts(r, x) <= 0
  }

  /** Index `k` of `s` holds a record of minimal count. */
  predicate MinimalAt(s: seq<ViewStats>, k: int)
  {
    0 <= k < |s| && forall j :: 0 <= j < |s| ==> CompareCounts(s[k], s[j]) <= 0
  }

  /** The first index of minimal count; it witnesses that every non-empty sequence has one. */
  function FirstMinimal(s: seq<ViewStats>): (k: nat)
    requires s != []
    ensures MinimalAt(s, k)
    ensures forall j :: 0 <= j < k ==> s[j].count > s[k].count
  {
    if |s| == 1 then
      0
    else
      var k := FirstMinimal(s[..|s| - 1]);
      if s[|s| - 1].count < s[k].count then |s| - 1 else k
  }

  lemma MinimalAtIsMinimal(s: seq<ViewStats>, k: int)
    requires MinimalAt(s, k)
    ensures IsMinimal(s[k], multiset(s))
  {
    forall x | x in multiset(s) ensures CompareCounts(s[k], x) <= 0 {
      var j :| 0 <= j < |s| && s[j] == x;
    }
  }

  /** Cutting out index `k` removes exactly one copy of `s[k]`. */
  lemma RemoveAtContents(s: seq<ViewStats>, k: int)
    requires 0 <= k < |s|
    ensures multiset(s[..k] + s[k + 1..]) == multiset(s) - multiset{s[k]}
  {
    assert s == s[..k] + [s[k]] + s[k + 1..];
  }

  /**
   * `java.util.PriorityQueue<GenericRecord>` ordered ascending by count. Only
   * the elements are modelled, in `items`; the heap layout is not, so the
   * queue's abstract value is the multiset `Contents()`.
   */
  class RankingQueue {
    var items: seq<ViewStats>

    ghost function Contents(): multiset<ViewStats>
      reads this
    {
      multiset(items)
    }

    /** `new PriorityQueue<>(comparator)`: an empty queue. */
    constructor ()
      ensures Contents() == multiset{}
    {
      items := [];
    }

    /** `queue.add(record)`: one more copy of `record`, nothing else changes. */
    method Add(record: ViewStats)
      modifies this
      ensures Contents() == old(Contents()) + multiset{record}
    {
      items := items + [record];
    }

    /**
     * `queue.remove(record)`: removes a single element equal to `record` and
     * reports whether there was one; without one the queue is unchanged.
     */
    method Remove(record: ViewStats) returns (removed: bool)
      modifies this
      ensures removed <==> record in old(Contents())
      ensures Contents() == old(Contents()) - multiset{record}
    {
      removed := record in items;
      if removed {
        var i :| 0 <= i < |items| && items[i] == record;
        RemoveAtContents(items, i);
        items := items[..i] + items[i + 1..];
      }
    }

    /**
     * `queue.poll()`: on an empty queue, None and no change; otherwise removes
     * and returns an element whose count is minimal (the head of an ascending
     * queue). Which of several equal-count elements comes out is not modelled.
     */
    method Poll() returns (r: Option<ViewStats>)
      modifies this
      ensures old(Contents()) == multiset{} ==> r == None && Contents() == old(Contents())
      ensures old(Contents()) != multiset{} ==>
                r.Some? && r.value in old(Contents()) && IsMinimal(r.value, old(Contents())) &&
                Contents() == old(Contents()) - multiset{r.value}
    {
      if items == [] {
        r := None;
      } else {
        ghost var first := FirstMinimal(items);
        assert MinimalAt(items, first);
        var k :| 0 <= k < |items| && MinimalAt(items, k);
        r := Some(items[k]);
        MinimalAtIsMinimal(items, k);
        RemoveAtContents(items, k);
        items := items[..k] + items[k + 1..];
      }
    }
  }

  /** The aggregate's initializer: a fresh empty queue. */
  method Initializer() returns (queue: RankingQueue)
    ensures fresh(queue) && queue.Contents() == multiset{}
  {
    queue := new RankingQueue();
  }

  /**
   * The "add" aggregator: inserts `record` into `queue` in place and returns the
   * same queue. The multiplicity of `record` rises by one, all others stay.
   */
  method AddAggregator(windowedIndustry: Windowed<string>, record: ViewStats, queue: RankingQueue)
      returns (result: RankingQueue)
    modifies queue
    ensures result == queue
    ensures queue.Contents() == old(queue.Contents()) + multiset{record}
  {
    queue.Add(record);
    result := queue;
  }

  /**
   * The "remove" aggregator: removes one record equal to `record` from `queue` in
   * place, if there is one, and returns the same queue.
   */
  method RemoveAggregator(windowedIndustry: Windowed<string>, record: ViewStats, queue: RankingQueue)
      returns (result: RankingQueue)
    modifies queue
    ensures result == queue
    ensures queue.Contents() == old(queue.Contents()) - multiset{record}
    ensures record !in old(queue.Contents()) ==> queue.Contents() == old(queue.Contents())
  {
    var _ := queue.Remove(record);
    result := queue;
  }

  /** "add" followed by "remove" of the same record leaves the queue's elements as they were. */
  method AddThenRemove(windowedIndustry: Windowed<string>, record: ViewStats, queue: RankingQueue)
    modifies queue
    ensures queue.Contents() == old(queue.Contents())
  {
    var q := AddAggregator(windowedIndustry, record, queue);
    q := RemoveAggregator(windowedIndustry, record, q);
  }
}
