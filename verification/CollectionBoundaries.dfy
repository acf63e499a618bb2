/** Live collection intervals of collector runs and the measure of their union.
    Times are integers (microseconds); a duration is a number of ticks. */
module CollectionBoundaries {
  import opened Collections
  import opened Quantities
  import opened Wrappers
  import opened Sorting

  datatype RunBoundary = RunBoundary(
    runId: nat,
    collectionStartedAt: Option<int>,
    finishedAt: Option<int>)

  datatype LiveInterval = LiveInterval(runId: nat, start: int, end: int)

  datatype BoundaryError =
    | EmptyScope
    | FinishedBeforeStart(runId: nat)

  // ---------------------------------------------------------------- specification

  /** The run was collecting at tick t: a run with an unknown start never counts, an open
      run lasts for ever. */
  predicate LiveAt(run: RunBoundary, t: int) {
    && run.collectionStartedAt.Some?
    && run.collectionStartedAt.value <= t
    && (run.finishedAt.Some? ==> t < run.finishedAt.value)
  }

  /** The ticks of the scope at which some run was collecting. */
  function LiveTicks(runs: seq<RunBoundary>, start: int, end: int): set<int> {
    set t | t in Ticks(start, end) && exists i :: 0 <= i < |runs| && LiveAt(runs[i], t)
  }

  /** The source rejects a run whose clipped end precedes its start. */
  predicate Rejected(run: RunBoundary, end: int) {
    && run.collectionStartedAt.Some?
    && Min(end, run.finishedAt.GetOr(end)) < run.collectionStartedAt.value
  }

  /** The ticks of a half-open interval. */
  function Ticks(start: int, end: int): (ticks: set<int>)
    ensures forall t :: t in ticks <==> start <= t < end
    ensures |ticks| == Max(0, end - start)
    decreases end - start
  {
    if end <= start then {} else {start} + Ticks(start + 1, end)
  }

  /** The ticks covered by at least one interval. */
  function Covered(intervals: seq<LiveInterval>): set<int> {
    if intervals == [] then {}
    else
      var last := intervals[|intervals| - 1];
      Covered(intervals[..|intervals| - 1]) + Ticks(last.start, last.end)
  }

  lemma {:induction false} CoveredMembership(intervals: seq<LiveInterval>, t: int)
    ensures t in Covered(intervals) <==>
            exists i :: 0 <= i < |intervals| && intervals[i].start <= t < intervals[i].end
  {
    if intervals != [] {
      var n := |intervals| - 1;
      CoveredMembership(intervals[..n], t);
      if i :| 0 <= i < n && intervals[..n][i].start <= t < intervals[..n][i].end {
        assert intervals[i].start <= t < intervals[i].end;
      }
      if i :| 0 <= i < |intervals| && intervals[i].start <= t < intervals[i].end {
        assert i < n ==> intervals[..n][i] == intervals[i];
      }
    }
  }

  /** The part of one run inside the scope. */
  function Clip(run: RunBoundary, start: int, end: int): LiveInterval
    requires run.collectionStartedAt.Some?
  {
    LiveInterval(run.runId,
                 Max(start, run.collectionStartedAt.value),
                 Min(end, run.finishedAt.GetOr(end)))
  }

  /** The non-empty clipped runs, in run order. */
  function ClippedRuns(runs: seq<RunBoundary>, start: int, end: int): seq<LiveInterval> {
    if runs == [] then []
    else
      var n := |runs| - 1;
      var before := ClippedRuns(runs[..n], start, end);
      if runs[n].collectionStartedAt.Some? && Clip(runs[n], start, end).start < Clip(runs[n], start, end).end
      then before + [Clip(runs[n], start, end)]
      else before
  }

  /** The ticks one run contributes to the scope. */
  function RunTicks(run: RunBoundary, start: int, end: int): set<int> {
    if run.collectionStartedAt.None? then {}
    else Ticks(Clip(run, start, end).start, Clip(run, start, end).end)
  }

  lemma LiveTicksSplit(runs: seq<RunBoundary>, start: int, end: int)
    requires runs != []
    ensures LiveTicks(runs, start, end)
         == LiveTicks(runs[..|runs| - 1], start, end) + RunTicks(runs[|runs| - 1], start, end)
  {
    var n := |runs| - 1;
    forall t | t in Ticks(start, end)
      ensures t in LiveTicks(runs, start, end) <==>
              t in LiveTicks(runs[..n], start, end) + RunTicks(runs[n], start, end)
    {
      assert LiveAt(runs[n], t) <==> t in RunTicks(runs[n], start, end);
      if i :| 0 <= i < |runs| && LiveAt(runs[i], t) {
        assert i < n ==> LiveAt(runs[..n][i], t);
      }
      if i :| 0 <= i < n && LiveAt(runs[..n][i], t) {
        assert LiveAt(runs[i], t);
      }
    }
  }

  /** Clipping loses no live tick, invents none, and fills no restart gap. */
  lemma {:induction false} ClippedRunsCoverLiveTicks(runs: seq<RunBoundary>, start: int, end: int)
    ensures Covered(ClippedRuns(runs, start, end)) == LiveTicks(runs, start, end)
    ensures forall i :: 0 <= i < |ClippedRuns(runs, start, end)| ==>
      var interval := ClippedRuns(runs, start, end)[i];
      start <= interval.start < interval.end <= end
  {
    if runs != [] {
      var n := |runs| - 1;
      var run := runs[n];
      ClippedRunsCoverLiveTicks(runs[..n], start, end);
      var before := ClippedRuns(runs[..n], start, end);
      LiveTicksSplit(runs, start, end);
      if run.collectionStartedAt.Some? && Clip(run, start, end).start < Clip(run, start, end).end {
        assert (before + [Clip(run, start, end)])[..|before|] == before;
      }
    }
  }

  /** The run was collecting within the scope at tick t, in its own columns. */
  predicate Collected(run: RunBoundary, start: int, end: int, t: int) {
    && start <= t < end && run.collectionStartedAt.Some? && run.collectionStartedAt.value <= t
    && (run.finishedAt.None? || t < run.finishedAt.value)
  }

  /** The live ticks are those at which a run was collecting. */
  lemma LiveTicksExactly(runs: seq<RunBoundary>, start: int, end: int, t: int)
    ensures t in LiveTicks(runs, start, end) <==> exists i :: 0 <= i < |runs| && Collected(runs[i], start, end, t)
  {
    if i :| 0 <= i < |runs| && Collected(runs[i], start, end, t) {
      assert LiveAt(runs[i], t);
    }
    if t in LiveTicks(runs, start, end) {
      var i :| 0 <= i < |runs| && LiveAt(runs[i], t);
      assert Collected(runs[i], start, end, t);
    }
  }

  /** A run that collected within the scope leaves one interval of its own, exactly those ticks; any other
      run leaves none. */
  lemma OneRunClipped(run: RunBoundary, start: int, end: int)
    ensures var clipped := ClippedRuns([run], start, end);
      && |clipped| <= 1
      && (clipped == [] ==> forall t :: !Collected(run, start, end, t))
      && (clipped != [] ==>
            && clipped[0].runId == run.runId && clipped[0].start < clipped[0].end
            && forall t :: clipped[0].start <= t < clipped[0].end <==> Collected(run, start, end, t))
  {
    assert [run][..0] == [];
  }

  /** ... in the order of the runs. */
  lemma {:induction false} ClippedInOrder(a: seq<RunBoundary>, b: seq<RunBoundary>, start: int, end: int)
    ensures ClippedRuns(a + b, start, end) == ClippedRuns(a, start, end) + ClippedRuns(b, start, end)
  {
    if b == [] {
      assert a + b == a;
    } else {
      ClippedInOrder(a, b[..|b| - 1], start, end);
      SplitLast(a, b);
    }
  }

  /** The measure depends only on which runs there are: order and duplicates do not matter. */
  lemma LiveTicksIgnoreOrder(a: seq<RunBoundary>, b: seq<RunBoundary>, start: int, end: int)
    requires forall run :: run in a <==> run in b
    ensures LiveTicks(a, start, end) == LiveTicks(b, start, end)
    ensures (exists i :: 0 <= i < |a| && Rejected(a[i], end)) <==> (exists i :: 0 <= i < |b| && Rejected(b[i], end))
  {
    LiveTicksMonotone(a, b, start, end);
    LiveTicksMonotone(b, a, start, end);
  }

  lemma LiveTicksMonotone(a: seq<RunBoundary>, b: seq<RunBoundary>, start: int, end: int)
    requires forall run :: run in a ==> run in b
    ensures LiveTicks(a, start, end) <= LiveTicks(b, start, end)
    ensures (exists i :: 0 <= i < |a| && Rejected(a[i], end)) ==> (exists i :: 0 <= i < |b| && Rejected(b[i], end))
  {
    forall t | t in LiveTicks(a, start, end)
      ensures t in LiveTicks(b, start, end)
    {
      var i :| 0 <= i < |a| && LiveAt(a[i], t);
      assert a[i] in b;
      var j :| 0 <= j < |b| && b[j] == a[i];
      assert LiveAt(b[j], t);
    }
    if i :| 0 <= i < |a| && Rejected(a[i], end) {
      assert a[i] in b;
      var j :| 0 <= j < |b| && b[j] == a[i];
      assert Rejected(b[j], end);
    }
  }

  /** The guard is wider than its message: it raises exactly for a run that finished before it
      started, or that started after the end of the scope. */
  lemma RejectedExactly(run: RunBoundary, end: int)
    ensures Rejected(run, end) <==>
            (&& run.collectionStartedAt.Some?
             && (|| end < run.collectionStartedAt.value
                 || (run.finishedAt.Some? && run.finishedAt.value < run.collectionStartedAt.value)))
  {
  }

  // ---------------------------------------------------------------- the two loops

  /** The sort key (start, end, run id). */
  predicate Before(a: LiveInterval, b: LiveInterval) {
    || a.start < b.start
    || (a.start == b.start && a.end < b.end)
    || (a.start == b.start && a.end == b.end && a.runId <= b.runId)
  }

  lemma CoveredIgnoresOrder(a: seq<LiveInterval>, b: seq<LiveInterval>)
    requires forall x :: x in a <==> x in b
    ensures Covered(a) == Covered(b)
  {
    forall t
      ensures t in Covered(a) <==> t in Covered(b)
    {
      CoveredMembership(a, t);
      CoveredMembership(b, t);
      if i :| 0 <= i < |a| && a[i].start <= t < a[i].end {
        assert a[i] in b;
      }
      if i :| 0 <= i < |b| && b[i].start <= t < b[i].end {
        assert b[i] in a;
      }
    }
  }

  method LiveCollectionIntervals(runs: seq<RunBoundary>, start: int, end: int)
    returns (result: Result<seq<LiveInterval>, BoundaryError>)
    ensures result.Success? <==> start < end && forall i :: 0 <= i < |runs| ==> !Rejected(runs[i], end)
    ensures result.Success? ==> result.value == ClippedRuns(runs, start, end)
    ensures result.Failure? && start < end ==>
      exists i :: && 0 <= i < |runs| && Rejected(runs[i], end)
                  && (forall j :: 0 <= j < i ==> !Rejected(runs[j], end))
                  && result.error == FinishedBeforeStart(runs[i].runId)
  {
    if start >= end {
      return Failure(EmptyScope);
    }
    var intervals: seq<LiveInterval> := [];
    for k := 0 to |runs|
      invariant intervals == ClippedRuns(runs[..k], start, end)
      invariant forall j :: 0 <= j < k ==> !Rejected(runs[j], end)
    {
      assert runs[..k + 1][..k] == runs[..k];
      var run := runs[k];
      if run.collectionStartedAt.Some? {
        var intervalStart := Max(start, run.collectionStartedAt.value);
        var intervalEnd := Min(end, run.finishedAt.GetOr(end));
        if intervalEnd < run.collectionStartedAt.value {
          return Failure(FinishedBeforeStart(run.runId));
        }
        if intervalStart < intervalEnd {
          intervals := intervals + [LiveInterval(run.runId, intervalStart, intervalEnd)];
        }
      }
    }
    assert runs[..|runs|] == runs;
    return Success(intervals);
  }

  /** After a prefix of the ordered intervals: `closed` holds the ticks of the blocks already
      added to the total, all of them before the block that is still growing. */
  ghost predicate Measured(prefix: seq<LiveInterval>, closed: set<int>, total: int, curStart: int, curEnd: int) {
    && curStart <= curEnd
    && total == |closed|
    && (forall t :: t in closed ==> t < curStart)
    && Covered(prefix) == closed + Ticks(curStart, curEnd)
  }

  lemma CoveredExtends(s: seq<LiveInterval>, k: nat)
    requires k < |s|
    ensures Covered(s[..k + 1]) == Covered(s[..k]) + Ticks(s[k].start, s[k].end)
  {
    assert s[..k + 1][..k] == s[..k];
  }

  lemma CloseBlock(closed: set<int>, curStart: int, curEnd: int)
    requires curStart <= curEnd && forall t :: t in closed ==> t < curStart
    ensures |closed + Ticks(curStart, curEnd)| == |closed| + (curEnd - curStart)
  {
    assert closed !! Ticks(curStart, curEnd);
  }

  /** Merging a touching or overlapping interval extends the growing block. */
  lemma MergeStep(s: seq<LiveInterval>, k: nat, closed: set<int>, total: int, curStart: int, curEnd: int)
    requires k < |s| && Measured(s[..k], closed, total, curStart, curEnd)
    requires curStart <= s[k].start <= curEnd
    ensures Measured(s[..k + 1], closed, total, curStart, Max(curEnd, s[k].end))
  {
    CoveredExtends(s, k);
    TicksJoin(curStart, curEnd, s[k].start, s[k].end);
    Regroup(closed, Ticks(curStart, curEnd), Ticks(s[k].start, s[k].end));
  }

  lemma TicksJoin(a: int, b: int, c: int, d: int)
    requires a <= c <= b
    ensures Ticks(a, b) + Ticks(c, d) == Ticks(a, Max(b, d))
  {
  }

  lemma Regroup<T>(a: set<T>, b: set<T>, c: set<T>)
    ensures (a + b) + c == a + (b + c)
  {
  }

  /** A gap closes the growing block and opens another; the gap itself is not counted. */
  lemma GapStep(s: seq<LiveInterval>, k: nat, closed: set<int>, total: int, curStart: int, curEnd: int)
    requires k < |s| && Measured(s[..k], closed, total, curStart, curEnd)
    requires curEnd < s[k].start <= s[k].end
    ensures Measured(s[..k + 1], closed + Ticks(curStart, curEnd), total + (curEnd - curStart), s[k].start, s[k].end)
  {
    CoveredExtends(s, k);
    CloseBlock(closed, curStart, curEnd);
  }

  lemma OrderedIntervals(intervals: seq<LiveInterval>)
    requires forall i :: 0 <= i < |intervals| ==> intervals[i].start <= intervals[i].end
    ensures |Sort(Before, intervals)| == |intervals|
    ensures Covered(Sort(Before, intervals)) == Covered(intervals)
    ensures forall i :: 0 <= i < |intervals| ==> Sort(Before, intervals)[i].start <= Sort(Before, intervals)[i].end
    ensures forall i :: 0 < i < |intervals| ==> Sort(Before, intervals)[i - 1].start <= Sort(Before, intervals)[i].start
  {
    var ordered := Sort(Before, intervals);
    SortSorts(Before, intervals);
    SameMembers(ordered, intervals);
    CoveredIgnoresOrder(ordered, intervals);
    forall i | 0 <= i < |intervals|
      ensures ordered[i].start <= ordered[i].end
      ensures 0 < i ==> ordered[i - 1].start <= ordered[i].start
    {
      assert ordered[i] in intervals;
      assert 0 < i ==> Before(ordered[i - 1], ordered[i]);
    }
  }

  method LiveSeconds(intervals: seq<LiveInterval>) returns (total: int)
    requires forall i :: 0 <= i < |intervals| ==> intervals[i].start <= intervals[i].end
    ensures total == |Covered(intervals)|
  {
    if intervals == [] {
      return 0;
    }
    OrderedIntervals(intervals);
    var ordered := Sort(Before, intervals);
    total := MeasureOrdered(ordered);
  }

  method MeasureOrdered(ordered: seq<LiveInterval>) returns (total: int)
    requires ordered != []
    requires forall i :: 0 <= i < |ordered| ==> ordered[i].start <= ordered[i].end
    requires forall i :: 0 < i < |ordered| ==> ordered[i - 1].start <= ordered[i].start
    ensures total == |Covered(ordered)|
  {
    total := 0;
    var curStart, curEnd := ordered[0].start, ordered[0].end;
    ghost var closed: set<int> := {};
    CoveredExtends(ordered, 0);
    for k := 1 to |ordered|
      invariant curStart <= ordered[k - 1].start
      invariant Measured(ordered[..k], closed, total, curStart, curEnd)
    {
      var interval := ordered[k];
      if interval.start <= curEnd {
        MergeStep(ordered, k, closed, total, curStart, curEnd);
        curEnd := Max(curEnd, interval.end);
      } else {
        GapStep(ordered, k, closed, total, curStart, curEnd);
        closed := closed + Ticks(curStart, curEnd);
        total := total + (curEnd - curStart);
        curStart, curEnd := interval.start, interval.end;
      }
    }
    assert ordered[..|ordered|] == ordered;
    CloseBlock(closed, curStart, curEnd);
    total := total + (curEnd - curStart);
  }

  /** The duration used by reporting: the measure of the scope intersected with the union of
      the known runs. */
  method LiveDuration(runs: seq<RunBoundary>, start: int, end: int)
    returns (result: Result<int, BoundaryError>)
    ensures result.Success? <==> start < end && forall i :: 0 <= i < |runs| ==> !Rejected(runs[i], end)
    ensures result.Success? ==> result.value == |LiveTicks(runs, start, end)|
  {
    var intervals := LiveCollectionIntervals(runs, start, end);
    if intervals.Failure? {
      return Failure(intervals.error);
    }
    ClippedRunsCoverLiveTicks(runs, start, end);
    var total := LiveSeconds(intervals.value);
    return Success(total);
  }
}
