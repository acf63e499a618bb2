/** The sweep that finds the peak number of simultaneous coverage intervals. */
module PeakOverlap {
  import opened Quantities
  import opened Sorting

  /** A half-open interval of time. */
  datatype Span = Span(start: int, end: int) {
    predicate Contains(t: int) { start <= t < end }
  }

  // ---------------------------------------------------------------- specification

  /** How many of the spans contain the instant t. */
  function Overlap(spans: seq<Span>, t: int): nat {
    if spans == [] then 0 else (if spans[0].Contains(t) then 1 else 0) + Overlap(spans[1..], t)
  }

  /** The largest overlap over all instants; 0 when there is no span. */
  ghost predicate IsPeak(spans: seq<Span>, peak: int) {
    && (forall t :: Overlap(spans, t) <= peak)
    && (exists t :: Overlap(spans, t) == peak)
  }

  // ---------------------------------------------------------------- facts about Overlap

  lemma {:induction false} OverlapAppend(a: seq<Span>, b: seq<Span>, t: int)
    ensures Overlap(a + b, t) == Overlap(a, t) + Overlap(b, t)
  {
    if a == [] {
      assert a + b == b;
    } else {
      OverlapAppend(a[1..], b, t);
      assert (a + b)[1..] == a[1..] + b;
    }
  }

  /** The spans that have begun by t and not ended. */
  function ActiveAt(spans: seq<Span>, t: int): set<int> {
    set i | 0 <= i < |spans| && spans[i].start <= t < spans[i].end
  }

  lemma ActiveAtNext(spans: seq<Span>, span: Span, t: int)
    ensures ActiveAt(spans + [span], t) == ActiveAt(spans, t) + if span.start <= t < span.end then {|spans|} else {}
    ensures |spans| !in ActiveAt(spans, t)
  {
    forall i
      ensures i in ActiveAt(spans, t) <==> i in ActiveAt(spans + [span], t) && i < |spans|
    {
    }
  }

  /** The overlap is the number of spans that are active. */
  lemma {:induction false} OverlapIsCount(spans: seq<Span>, t: int)
    ensures Overlap(spans, t) == |ActiveAt(spans, t)|
  {
    if spans != [] {
      var n := |spans| - 1;
      OverlapIsCount(spans[..n], t);
      OverlapExtend(spans, n, t);
      ActiveAtNext(spans[..n], spans[n], t);
      assert spans == spans[..n] + [spans[n]] && spans[..n + 1] == spans;
    }
  }

  lemma OverlapExtend(spans: seq<Span>, k: nat, t: int)
    requires k < |spans|
    ensures Overlap(spans[..k + 1], t) == Overlap(spans[..k], t) + (if spans[k].Contains(t) then 1 else 0)
    ensures Overlap(spans[..k], t) <= Overlap(spans, t)
  {
    OverlapAppend(spans[..k], [spans[k]], t);
    assert spans[..k] + [spans[k]] == spans[..k + 1];
    OverlapAppend(spans[..k], spans[k..], t);
    assert spans[..k] + spans[k..] == spans;
  }

  lemma {:induction false} OverlapInsert(x: Span, s: seq<Span>, t: int)
    ensures Overlap(Insert(Before, x, s), t) == Overlap([x] + s, t)
  {
    if s == [] || Before(x, s[0]) {
    } else {
      OverlapInsert(x, s[1..], t);
    }
  }

  lemma {:induction false} OverlapSort(s: seq<Span>, t: int)
    ensures Overlap(Sort(Before, s), t) == Overlap(s, t)
  {
    if s != [] {
      OverlapSort(s[1..], t);
      OverlapInsert(s[0], Sort(Before, s[1..]), t);
    }
  }

  /** A span that starts later contains no earlier instant. */
  lemma {:induction false} OverlapOfLater(spans: seq<Span>, t: int)
    requires forall i :: 0 <= i < |spans| ==> t < spans[i].start
    ensures Overlap(spans, t) == 0
  {
    if spans != [] {
      OverlapOfLater(spans[1..], t);
    }
  }

  /** Among spans that have all started, moving the instant back loses none of them. */
  lemma {:induction false} OverlapEarlier(spans: seq<Span>, earlier: int, t: int)
    requires earlier <= t
    requires forall i :: 0 <= i < |spans| ==> spans[i].start <= earlier
    ensures Overlap(spans, t) <= Overlap(spans, earlier)
  {
    if spans != [] {
      OverlapEarlier(spans[1..], earlier, t);
    }
  }

  /** In an ordered list some prefix attains, at its own last start, every overlap. */
  lemma OverlapAtSomeStart(spans: seq<Span>, t: int)
    requires forall i :: 0 < i < |spans| ==> spans[i - 1].start <= spans[i].start
    ensures Overlap(spans, t) == 0
         || exists k :: 0 < k <= |spans| && Overlap(spans, t) <= Overlap(spans[..k], spans[k - 1].start)
  {
    var k := |spans|;
    while 0 < k && t < spans[k - 1].start
      invariant 0 <= k <= |spans|
      invariant forall i :: k <= i < |spans| ==> t < spans[i].start
    {
      k := k - 1;
    }
    OverlapAppend(spans[..k], spans[k..], t);
    assert spans[..k] + spans[k..] == spans;
    OverlapOfLater(spans[k..], t);
    if 0 < k {
      StartsBounded(spans, k);
      OverlapEarlier(spans[..k], spans[k - 1].start, t);
    }
  }

  lemma {:induction false} StartsBounded(spans: seq<Span>, k: nat)
    requires 0 < k <= |spans|
    requires forall i :: 0 < i < |spans| ==> spans[i - 1].start <= spans[i].start
    ensures forall i :: 0 <= i < k ==> spans[i].start <= spans[k - 1].start
  {
    if 1 < k {
      StartsBounded(spans, k - 1);
    }
  }

  // ---------------------------------------------------------------- the heap

  predicate AtMost(a: int, b: int) { a <= b }

  /** The end times still in the future of t. */
  function LiveEnds(spans: seq<Span>, t: int): multiset<int> {
    if spans == [] then multiset{}
    else
      var n := |spans| - 1;
      LiveEnds(spans[..n], t) + (if t < spans[n].end then multiset{spans[n].end} else multiset{})
  }

  lemma {:induction false} LiveEndsCount(spans: seq<Span>, t: int)
    requires forall i :: 0 <= i < |spans| ==> spans[i].start <= t
    ensures |LiveEnds(spans, t)| == Overlap(spans, t)
  {
    if spans != [] {
      var n := |spans| - 1;
      LiveEndsCount(spans[..n], t);
      OverlapExtend(spans, n, t);
      assert spans[..n + 1] == spans;
    }
  }

  lemma {:induction false} LiveEndsLater(spans: seq<Span>, t: int, later: int, e: int)
    requires t <= later
    ensures LiveEnds(spans, later)[e] == if later < e then LiveEnds(spans, t)[e] else 0
  {
    if spans != [] {
      LiveEndsLater(spans[..|spans| - 1], t, later, e);
    }
  }

  // ---------------------------------------------------------------- the sweep

  /** The sort key (start, end). */
  predicate Before(a: Span, b: Span) {
    a.start < b.start || (a.start == b.start && a.end <= b.end)
  }

  ghost predicate NonEmptyInOrder(ordered: seq<Span>) {
    && (forall i :: 0 <= i < |ordered| ==> ordered[i].start < ordered[i].end)
    && (forall i :: 0 < i < |ordered| ==> ordered[i - 1].start <= ordered[i].start)
  }

  lemma OrderedSpans(spans: seq<Span>)
    requires forall i :: 0 <= i < |spans| ==> spans[i].start < spans[i].end
    ensures NonEmptyInOrder(Sort(Before, spans))
  {
    var ordered := Sort(Before, spans);
    SortSorts(Before, spans);
    SameMembers(ordered, spans);
    forall i | 0 <= i < |ordered|
      ensures ordered[i].start < ordered[i].end
      ensures 0 < i ==> ordered[i - 1].start <= ordered[i].start
    {
      assert ordered[i] in spans;
      assert 0 < i ==> Before(ordered[i - 1], ordered[i]);
    }
  }

  /** The heap after the first k spans: the ends that are still in the future. */
  ghost predicate HeapOf(ordered: seq<Span>, k: nat, active: seq<int>)
    requires k <= |ordered|
  {
    && SortedBy(AtMost, active)
    && multiset(active) == LiveEnds(ordered[..k], if k == 0 then 0 else ordered[k - 1].start)
  }

  /** The overlap of the first i spans at the start of the last of them. */
  function AtStart(ordered: seq<Span>, i: nat): nat
    requires i <= |ordered|
  {
    if i == 0 then 0 else Overlap(ordered[..i], ordered[i - 1].start)
  }

  ghost predicate PeakOfStarts(ordered: seq<Span>, k: nat, peak: int)
    requires k <= |ordered|
  {
    && (forall i :: 0 <= i <= k ==> AtStart(ordered, i) <= peak)
    && (exists i :: 0 <= i <= k && AtStart(ordered, i) == peak)
  }

  /** The largest value reached at a start is the peak over all instants. */
  lemma PeakIsAtAStart(ordered: seq<Span>, peak: int)
    requires NonEmptyInOrder(ordered) && PeakOfStarts(ordered, |ordered|, peak)
    ensures IsPeak(ordered, peak)
  {
    forall t
      ensures Overlap(ordered, t) <= peak
    {
      OverlapAtSomeStart(ordered, t);
      assert AtStart(ordered, 0) <= peak;
      if k :| 0 < k <= |ordered| && Overlap(ordered, t) <= Overlap(ordered[..k], ordered[k - 1].start) {
        assert AtStart(ordered, k) <= peak;
      }
    }
    var w :| 0 <= w <= |ordered| && AtStart(ordered, w) == peak;
    var t := ReachedAtStart(ordered, w);
    assert Overlap(ordered, t) == peak;
  }

  /** A largest value at a start is an overlap of the whole list. */
  lemma ReachedAtStart(ordered: seq<Span>, w: nat) returns (t: int)
    requires NonEmptyInOrder(ordered) && w <= |ordered|
    requires forall t :: Overlap(ordered, t) <= AtStart(ordered, w)
    ensures Overlap(ordered, t) == AtStart(ordered, w)
  {
    if 0 < w {
      t := ordered[w - 1].start;
      OverlapAppend(ordered[..w], ordered[w..], t);
      assert ordered[..w] + ordered[w..] == ordered;
    } else {
      t := 0;
    }
  }

  lemma TailIsSorted(s: seq<int>)
    requires s != [] && SortedBy(AtMost, s)
    ensures SortedBy(AtMost, s[1..])
  {
    forall i, j | 0 <= i < j < |s| - 1
      ensures AtMost(s[1..][i], s[1..][j])
    {
      assert AtMost(s[i + 1], s[j + 1]);
    }
  }

  /** Removes every end at or before the start of span k. The heap is kept as an ordered list,
      whose head is its minimum. */
  method PopExpired(ordered: seq<Span>, k: nat, heap: seq<int>) returns (active: seq<int>)
    requires NonEmptyInOrder(ordered) && k < |ordered| && HeapOf(ordered, k, heap)
    ensures SortedBy(AtMost, active) && multiset(active) == LiveEnds(ordered[..k], ordered[k].start)
  {
    active := heap;
    var start := ordered[k].start;
    while active != [] && active[0] <= start
      invariant SortedBy(AtMost, active)
      invariant forall e :: start < e ==> multiset(active)[e] == multiset(heap)[e]
    {
      assert active == [active[0]] + active[1..];
      TailIsSorted(active);
      active := active[1..];
    }
    forall i | 0 <= i < |active|
      ensures start < active[i]
    {
      assert i == 0 || AtMost(active[0], active[i]);
    }
    forall e
      ensures multiset(active)[e] == LiveEnds(ordered[..k], start)[e]
    {
      if 0 < k {
        LiveEndsLater(ordered[..k], ordered[k - 1].start, start, e);
      }
      assert e <= start ==> e !in active;
    }
  }

  /** Pushing the span's own end makes the heap size the overlap at its start. */
  lemma PushEnd(ordered: seq<Span>, k: nat, active: seq<int>)
    requires NonEmptyInOrder(ordered) && k < |ordered|
    requires SortedBy(AtMost, active) && multiset(active) == LiveEnds(ordered[..k], ordered[k].start)
    ensures HeapOf(ordered, k + 1, Insert(AtMost, ordered[k].end, active))
    ensures |Insert(AtMost, ordered[k].end, active)| == AtStart(ordered, k + 1)
  {
    var pushed := Insert(AtMost, ordered[k].end, active);
    InsertSorts(AtMost, ordered[k].end, active);
    InsertPermutes(AtMost, ordered[k].end, active);
    assert ordered[..k + 1][..k] == ordered[..k];
    assert multiset(pushed) == LiveEnds(ordered[..k + 1], ordered[k].start);
    StartsBounded(ordered, k + 1);
    LiveEndsCount(ordered[..k + 1], ordered[k].start);
    assert |pushed| == |multiset(pushed)|;
  }

  lemma PeakExtends(ordered: seq<Span>, k: nat, peak: int)
    requires k < |ordered| && PeakOfStarts(ordered, k, peak)
    ensures PeakOfStarts(ordered, k + 1, Max(peak, AtStart(ordered, k + 1)))
  {
    var i :| 0 <= i <= k && AtStart(ordered, i) == peak;
    var best := if peak < AtStart(ordered, k + 1) then k + 1 else i;
    assert AtStart(ordered, best) == Max(peak, AtStart(ordered, k + 1));
  }

  lemma PeakBegins(ordered: seq<Span>)
    ensures HeapOf(ordered, 0, []) && PeakOfStarts(ordered, 0, 0)
  {
    assert AtStart(ordered, 0) == 0;
  }

  method SweepOrdered(ordered: seq<Span>) returns (peak: int)
    requires NonEmptyInOrder(ordered)
    ensures IsPeak(ordered, peak)
  {
    var active: seq<int> := [];
    peak := 0;
    PeakBegins(ordered);
    for k := 0 to |ordered|
      invariant HeapOf(ordered, k, active)
      invariant PeakOfStarts(ordered, k, peak)
    {
      active := PopExpired(ordered, k, active);
      PushEnd(ordered, k, active);
      PeakExtends(ordered, k, peak);
      active := Insert(AtMost, ordered[k].end, active);
      peak := Max(peak, |active|);
    }
    PeakIsAtAStart(ordered, peak);
  }

  /** The peak is exactly the maximum overlap, whatever the order of the spans. */
  method PeakIntervals(spans: seq<Span>) returns (peak: int)
    requires forall i :: 0 <= i < |spans| ==> spans[i].start < spans[i].end
    ensures IsPeak(spans, peak)
  {
    OrderedSpans(spans);
    peak := SweepOrdered(Sort(Before, spans));
    forall t
      ensures Overlap(spans, t) == Overlap(Sort(Before, spans), t)
    {
      OverlapSort(spans, t);
    }
  }
}
