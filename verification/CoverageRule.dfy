/** The Tier 1 coverage of one epoch's evidence rows, in the fields of the rows and the policy alone. */
module CoverageRule {
  import opened CandidatePolicy
  import opened PeakOverlap

  datatype Row = Row(tokenId: nat, receivedAt: int, market: Market)

  predicate Eligible(p: Policy, row: Row) { row.market.Meets(p.tier1Market) }

  /** The order of the query: the rows of a token are contiguous and in receipt order. */
  ghost predicate Grouped(rows: seq<Row>) {
    && (forall i, j, k :: 0 <= i <= j <= k < |rows| && rows[i].tokenId == rows[k].tokenId ==>
          rows[j].tokenId == rows[i].tokenId)
    && (forall i, j :: 0 <= i <= j < |rows| && rows[i].tokenId == rows[j].tokenId ==>
          rows[i].receivedAt <= rows[j].receivedAt)
  }

  // ---------------------------------------------------------------- the rule

  /** Row i starts coverage: it is eligible, and no earlier start of its token is still in force. */
  predicate Starts(p: Policy, rows: seq<Row>, i: nat)
    requires i < |rows|
    decreases i
  {
    && Eligible(p, rows[i])
    && forall j: nat :: j < i && rows[j].tokenId == rows[i].tokenId && Starts(p, rows, j) ==>
         rows[j].receivedAt <= rows[i].receivedAt - p.tier1Ttl
  }

  /** Row i is the first row of its token at or after the end of the coverage that row o started. */
  predicate Follows(p: Policy, rows: seq<Row>, o: nat, i: nat)
    requires o < i < |rows|
  {
    && rows[o].tokenId == rows[i].tokenId && Starts(p, rows, o)
    && rows[o].receivedAt + p.tier1Ttl <= rows[i].receivedAt
    && forall k :: o < k < i ==> rows[k].receivedAt < rows[o].receivedAt + p.tier1Ttl
  }

  predicate FollowsSome(p: Policy, rows: seq<Row>, i: nat)
    requires i < |rows|
  {
    exists o: nat :: o < i && Follows(p, rows, o, i)
  }

  /** Coverage starts without following other coverage of the token. */
  predicate Enters(p: Policy, rows: seq<Row>, i: nat)
    requires i < |rows|
  {
    Starts(p, rows, i) && !FollowsSome(p, rows, i)
  }

  /** The first row after coverage of the token ran out is not eligible. */
  predicate Leaves(p: Policy, rows: seq<Row>, i: nat)
    requires i < |rows|
  {
    !Eligible(p, rows[i]) && FollowsSome(p, rows, i)
  }

  function StartRows(p: Policy, rows: seq<Row>, n: nat): set<nat>
    requires n <= |rows|
  {
    set i: nat | i < n && Starts(p, rows, i)
  }

  function EntryRows(p: Policy, rows: seq<Row>, n: nat): set<nat>
    requires n <= |rows|
  {
    set i: nat | i < n && Enters(p, rows, i)
  }

  function ExitRows(p: Policy, rows: seq<Row>, n: nat): set<nat>
    requires n <= |rows|
  {
    set i: nat | i < n && Leaves(p, rows, i)
  }

  /** One interval of the lifetime for every starting row, in row order. */
  function StartedSpans(p: Policy, rows: seq<Row>, n: nat): seq<Span>
    requires n <= |rows|
  {
    if n == 0 then []
    else
      StartedSpans(p, rows, n - 1)
      + if Starts(p, rows, n - 1) then [Span(rows[n - 1].receivedAt, rows[n - 1].receivedAt + p.tier1Ttl)] else []
  }

  /** The interval is that of one of the first n rows, which starts coverage. */
  predicate StartedBy(p: Policy, rows: seq<Row>, n: nat, span: Span)
    requires n <= |rows|
  {
    && span.end - span.start == p.tier1Ttl
    && exists i :: i in StartRows(p, rows, n) && span.start == rows[i].receivedAt
  }

  /** Every interval lasts the lifetime and starts at the receipt of an eligible row, and every starting
      row has its interval. */
  lemma StartedSpansAre(p: Policy, rows: seq<Row>, n: nat)
    requires n <= |rows|
    ensures forall k :: 0 <= k < |StartedSpans(p, rows, n)| ==> StartedBy(p, rows, n, StartedSpans(p, rows, n)[k])
    ensures forall i :: i in StartRows(p, rows, n) ==>
      Span(rows[i].receivedAt, rows[i].receivedAt + p.tier1Ttl) in StartedSpans(p, rows, n)
  {
    SpansAreStarted(p, rows, n);
    forall i | i in StartRows(p, rows, n)
      ensures Span(rows[i].receivedAt, rows[i].receivedAt + p.tier1Ttl) in StartedSpans(p, rows, n)
    {
      StartHasSpan(p, rows, n, i);
    }
  }

  lemma {:induction false} SpansAreStarted(p: Policy, rows: seq<Row>, n: nat)
    requires n <= |rows|
    ensures forall k :: 0 <= k < |StartedSpans(p, rows, n)| ==> StartedBy(p, rows, n, StartedSpans(p, rows, n)[k])
  {
    if 0 < n {
      SpansAreStarted(p, rows, n - 1);
      forall k | 0 <= k < |StartedSpans(p, rows, n)|
        ensures StartedBy(p, rows, n, StartedSpans(p, rows, n)[k])
      {
        if k < |StartedSpans(p, rows, n - 1)| {
          StillStarted(p, rows, n - 1, StartedSpans(p, rows, n - 1)[k]);
        } else {
          assert n - 1 in StartRows(p, rows, n);
        }
      }
    }
  }

  lemma StillStarted(p: Policy, rows: seq<Row>, n: nat, span: Span)
    requires n < |rows| && StartedBy(p, rows, n, span)
    ensures StartedBy(p, rows, n + 1, span)
  {
    var i :| i in StartRows(p, rows, n) && span.start == rows[i].receivedAt;
    assert i in StartRows(p, rows, n + 1);
  }

  lemma {:induction false} StartHasSpan(p: Policy, rows: seq<Row>, n: nat, i: nat)
    requires i < n <= |rows| && Starts(p, rows, i)
    ensures Span(rows[i].receivedAt, rows[i].receivedAt + p.tier1Ttl) in StartedSpans(p, rows, n)
  {
    if i < n - 1 {
      StartHasSpan(p, rows, n - 1, i);
    }
  }

  lemma AddRow(s: set<nat>, i: nat)
    requires i !in s
    ensures |s + {i}| == |s| + 1
  {
  }

  lemma OneMoreRow(p: Policy, rows: seq<Row>, n: nat)
    requires n < |rows|
    ensures |StartRows(p, rows, n + 1)| == |StartRows(p, rows, n)| + (if Starts(p, rows, n) then 1 else 0)
    ensures |EntryRows(p, rows, n + 1)| == |EntryRows(p, rows, n)| + (if Enters(p, rows, n) then 1 else 0)
    ensures |ExitRows(p, rows, n + 1)| == |ExitRows(p, rows, n)| + (if Leaves(p, rows, n) then 1 else 0)
  {
    NextRows(StartRows(p, rows, n), StartRows(p, rows, n + 1), n, Starts(p, rows, n));
    NextRows(EntryRows(p, rows, n), EntryRows(p, rows, n + 1), n, Enters(p, rows, n));
    NextRows(ExitRows(p, rows, n), ExitRows(p, rows, n + 1), n, Leaves(p, rows, n));
  }

  lemma NextRows(before: set<nat>, after: set<nat>, n: nat, counted: bool)
    requires forall i: nat :: i in before ==> i < n
    requires forall i: nat :: i in after <==> i in before || (counted && i == n)
    ensures |after| == |before| + (if counted then 1 else 0)
  {
    if counted {
      AddRow(before, n);
      assert after == before + {n};
    } else {
      assert after == before;
    }
  }
}
