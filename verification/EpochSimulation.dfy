/** The streaming simulation of Tier 1 coverage over one epoch's evidence rows. */
module EpochSimulation {
  import opened Wrappers
  import opened CandidatePolicy
  import opened CoverageRule
  import opened PeakOverlap
  import opened Collections

  datatype Simulation = Simulation(
    evaluatedTokens: int,
    eligibleTokens: int,
    candidateEvents: int,
    promotions: int,
    demotions: int,
    peakCoverage: int)

  // ---------------------------------------------------------------- specification

  /** Held coverage after a row: an eligible row that no held coverage reaches opens one, an
      ineligible row at or after the expiry drops it. */
  function HeldNext(p: Policy, row: Row, held: Option<int>): Option<int> {
    if held.Some? && row.receivedAt < held.value then held
    else if Eligible(p, row) then Some(row.receivedAt + p.tier1Ttl)
    else None
  }

  /** The coverage expiry that row i's token holds just before row i. */
  function HeldBefore(p: Policy, rows: seq<Row>, i: nat): Option<int>
    requires i < |rows|
  {
    if i == 0 || rows[i - 1].tokenId != rows[i].tokenId then None
    else HeldNext(p, rows[i - 1], HeldBefore(p, rows, i - 1))
  }

  function HeldAfter(p: Policy, rows: seq<Row>, i: nat): Option<int>
    requires i < |rows|
  {
    HeldNext(p, rows[i], HeldBefore(p, rows, i))
  }

  predicate Uncovered(p: Policy, rows: seq<Row>, i: nat)
    requires i < |rows|
  {
    HeldBefore(p, rows, i).None? || HeldBefore(p, rows, i).value <= rows[i].receivedAt
  }

  /** Row i opens a coverage interval: an eligible row that no coverage of its token reaches. */
  predicate Opens(p: Policy, rows: seq<Row>, i: nat)
    requires i < |rows|
  {
    Eligible(p, rows[i]) && Uncovered(p, rows, i)
  }

  /** Row i ends Tier 1: an ineligible row at or after the expiry of held coverage. */
  predicate Demotes(p: Policy, rows: seq<Row>, i: nat)
    requires i < |rows|
  {
    !Eligible(p, rows[i]) && HeldBefore(p, rows, i).Some? && Uncovered(p, rows, i)
  }

  /** Row i enters Tier 1 from Tier 0. */
  predicate Promotes(p: Policy, rows: seq<Row>, i: nat)
    requires i < |rows|
  {
    Opens(p, rows, i) && HeldBefore(p, rows, i).None?
  }

  /** How many of the first n rows open coverage, enter Tier 1, and leave it. */
  function Openings(p: Policy, rows: seq<Row>, n: nat): nat
    requires n <= |rows|
  {
    if n == 0 then 0 else Openings(p, rows, n - 1) + One(Opens(p, rows, n - 1))
  }

  function Promotions(p: Policy, rows: seq<Row>, n: nat): nat
    requires n <= |rows|
  {
    if n == 0 then 0 else Promotions(p, rows, n - 1) + One(Promotes(p, rows, n - 1))
  }

  function Demotions(p: Policy, rows: seq<Row>, n: nat): nat
    requires n <= |rows|
  {
    if n == 0 then 0 else Demotions(p, rows, n - 1) + One(Demotes(p, rows, n - 1))
  }

  /** How many tokens, among those whose rows all lie in the first n, end in Tier 1. */
  function LeftInTier1(p: Policy, rows: seq<Row>, n: nat): nat
    requires n <= |rows|
  {
    if n == 0 then 0
    else LeftInTier1(p, rows, n - 1)
         + One((n == |rows| || rows[n].tokenId != rows[n - 1].tokenId) && HeldAfter(p, rows, n - 1).Some?)
  }

  function One(b: bool): nat { if b then 1 else 0 }

  function Tokens(rows: seq<Row>): set<nat> {
    if rows == [] then {} else Tokens(rows[..|rows| - 1]) + {rows[|rows| - 1].tokenId}
  }

  function EligibleTokens(p: Policy, rows: seq<Row>): set<nat> {
    if rows == [] then {}
    else EligibleTokens(p, rows[..|rows| - 1])
         + (if Eligible(p, rows[|rows| - 1]) then {rows[|rows| - 1].tokenId} else {})
  }

  /** The counted tokens are those of the rows, and of the eligible rows. */
  lemma {:induction false} TokensAre(p: Policy, rows: seq<Row>, token: nat)
    ensures token in Tokens(rows) <==> exists i :: 0 <= i < |rows| && rows[i].tokenId == token
    ensures token in EligibleTokens(p, rows)
            <==> exists i :: 0 <= i < |rows| && rows[i].tokenId == token && Eligible(p, rows[i])
  {
    if rows != [] {
      var n := |rows| - 1;
      TokensAre(p, rows[..n], token);
      assert forall i :: 0 <= i < n ==> rows[..n][i] == rows[i];
    }
  }

  function SpanOf(p: Policy, row: Row): Span { Span(row.receivedAt, row.receivedAt + p.tier1Ttl) }

  /** The coverage intervals of the first n rows, in row order. */
  function Coverage(p: Policy, rows: seq<Row>, n: nat): seq<Span>
    requires n <= |rows|
  {
    if n == 0 then []
    else Coverage(p, rows, n - 1) + if Opens(p, rows, n - 1) then [SpanOf(p, rows[n - 1])] else []
  }

  // ---------------------------------------------------------------- coverage of one token

  /** Once row i extended coverage, its token holds coverage at least that long, or lost it only
      after it ran out. */
  lemma {:induction false} HeldReaches(p: Policy, rows: seq<Row>, i: nat, j: nat)
    requires 0 < p.tier1Ttl && Grouped(rows)
    requires i <= j < |rows| && rows[i].tokenId == rows[j].tokenId && Opens(p, rows, i)
    ensures var end := rows[i].receivedAt + p.tier1Ttl;
      match HeldAfter(p, rows, j)
      case Some(e) => end <= e
      case None => end <= rows[j].receivedAt
    decreases j - i
  {
    if i < j {
      assert rows[j - 1].tokenId == rows[i].tokenId;
      HeldReaches(p, rows, i, j - 1);
      assert rows[i].receivedAt <= rows[j - 1].receivedAt <= rows[j].receivedAt;
    }
  }

  /** The coverage intervals of one token never overlap. */
  lemma CoverageOfTokenIsDisjoint(p: Policy, rows: seq<Row>, i: nat, j: nat)
    requires 0 < p.tier1Ttl && Grouped(rows)
    requires i < j < |rows| && rows[i].tokenId == rows[j].tokenId && Opens(p, rows, i) && Opens(p, rows, j)
    ensures SpanOf(p, rows[i]).end <= SpanOf(p, rows[j]).start
  {
    assert rows[j - 1].tokenId == rows[i].tokenId;
    HeldReaches(p, rows, i, j - 1);
    assert rows[j - 1].receivedAt <= rows[j].receivedAt;
  }

  /** Held coverage was extended by an earlier row of the same token. */
  lemma {:induction false} HeldWasOpened(p: Policy, rows: seq<Row>, i: nat) returns (o: nat)
    requires Grouped(rows) && i < |rows| && HeldAfter(p, rows, i).Some?
    ensures o <= i && rows[o].tokenId == rows[i].tokenId && Opens(p, rows, o)
    ensures HeldAfter(p, rows, i).value == SpanOf(p, rows[o]).end
  {
    if Opens(p, rows, i) {
      o := i;
    } else {
      o := HeldWasOpened(p, rows, i - 1);
    }
  }

  /** No eligible row is left out: its receipt lies in a coverage interval of its own token. */
  lemma EligibleRowIsCovered(p: Policy, rows: seq<Row>, i: nat) returns (o: nat)
    requires 0 < p.tier1Ttl && Grouped(rows) && i < |rows| && Eligible(p, rows[i])
    ensures o <= i && rows[o].tokenId == rows[i].tokenId && Opens(p, rows, o)
    ensures SpanOf(p, rows[o]).Contains(rows[i].receivedAt)
  {
    o := HeldWasOpened(p, rows, i);
    assert rows[o].receivedAt <= rows[i].receivedAt;
  }

  // ---------------------------------------------------------------- the machine follows the rule

  /** Held coverage is that of the last start, which no row of the token has outlived yet. */
  lemma {:induction false} HeldBy(p: Policy, rows: seq<Row>, i: nat) returns (o: nat)
    requires Grouped(rows) && i < |rows| && HeldBefore(p, rows, i).Some?
    ensures o < i && rows[o].tokenId == rows[i].tokenId && Opens(p, rows, o)
    ensures HeldBefore(p, rows, i).value == rows[o].receivedAt + p.tier1Ttl
    ensures forall k :: o < k < i ==> rows[k].receivedAt < rows[o].receivedAt + p.tier1Ttl
  {
    if Opens(p, rows, i - 1) {
      o := i - 1;
    } else {
      o := HeldBy(p, rows, i - 1);
    }
  }

  lemma {:induction false} HeldUntilOutlived(p: Policy, rows: seq<Row>, o: nat, i: nat)
    requires Grouped(rows) && o < i < |rows| && rows[o].tokenId == rows[i].tokenId && Opens(p, rows, o)
    requires forall k :: o < k < i ==> rows[k].receivedAt < rows[o].receivedAt + p.tier1Ttl
    ensures HeldBefore(p, rows, i) == Some(rows[o].receivedAt + p.tier1Ttl)
  {
    assert rows[i - 1].tokenId == rows[o].tokenId;
    if o < i - 1 {
      HeldUntilOutlived(p, rows, o, i - 1);
    }
  }

  /** The machine opens coverage exactly where the rule starts it. */
  lemma {:induction false} OpensIsStarts(p: Policy, rows: seq<Row>, i: nat)
    requires 0 < p.tier1Ttl && Grouped(rows) && i < |rows|
    ensures Opens(p, rows, i) <==> Starts(p, rows, i)
    decreases i
  {
    forall j: nat | j < i
      ensures Opens(p, rows, j) <==> Starts(p, rows, j)
    {
      OpensIsStarts(p, rows, j);
    }
    if Opens(p, rows, i) {
      forall j: nat | j < i && rows[j].tokenId == rows[i].tokenId && Starts(p, rows, j)
        ensures rows[j].receivedAt <= rows[i].receivedAt - p.tier1Ttl
      {
        CoverageOfTokenIsDisjoint(p, rows, j, i);
      }
    }
    if Starts(p, rows, i) && HeldBefore(p, rows, i).Some? {
      var o := HeldBy(p, rows, i);
      assert Starts(p, rows, o);
    }
  }

  /** Coverage held and run out is coverage that the row follows. */
  lemma RunOutIsFollowed(p: Policy, rows: seq<Row>, i: nat)
    requires 0 < p.tier1Ttl && Grouped(rows) && i < |rows|
    ensures (HeldBefore(p, rows, i).Some? && HeldBefore(p, rows, i).value <= rows[i].receivedAt)
            <==> FollowsSome(p, rows, i)
  {
    if HeldBefore(p, rows, i).Some? && HeldBefore(p, rows, i).value <= rows[i].receivedAt {
      var o := HeldBy(p, rows, i);
      OpensIsStarts(p, rows, o);
      assert Follows(p, rows, o, i);
    }
    if o: nat :| o < i && Follows(p, rows, o, i) {
      OpensIsStarts(p, rows, o);
      HeldUntilOutlived(p, rows, o, i);
    }
  }

  lemma {:induction false} CoverageFollowsRule(p: Policy, rows: seq<Row>, n: nat)
    requires 0 < p.tier1Ttl && Grouped(rows) && n <= |rows|
    ensures Coverage(p, rows, n) == StartedSpans(p, rows, n)
  {
    if 0 < n {
      CoverageFollowsRule(p, rows, n - 1);
      OpensIsStarts(p, rows, n - 1);
    }
  }

  /** The counters after n rows. */
  function Counters(p: Policy, rows: seq<Row>, n: nat): (nat, nat, nat)
    requires n <= |rows|
  {
    (Openings(p, rows, n), Promotions(p, rows, n), Demotions(p, rows, n))
  }

  function RuleCounters(p: Policy, rows: seq<Row>, n: nat): (nat, nat, nat)
    requires n <= |rows|
  {
    (|StartRows(p, rows, n)|, |EntryRows(p, rows, n)|, |ExitRows(p, rows, n)|)
  }

  predicate CountsAgree(p: Policy, rows: seq<Row>, n: nat)
    requires n <= |rows|
  {
    Counters(p, rows, n) == RuleCounters(p, rows, n)
  }

  lemma {:induction false} CountersFollowRule(p: Policy, rows: seq<Row>, n: nat)
    requires 0 < p.tier1Ttl && Grouped(rows) && n <= |rows|
    ensures CountsAgree(p, rows, n)
  {
    if n == 0 {
      NothingCounted(p, rows);
    } else {
      CountersFollowRule(p, rows, n - 1);
      CountersNext(p, rows, n - 1);
    }
  }

  lemma NothingCounted(p: Policy, rows: seq<Row>)
    ensures CountsAgree(p, rows, 0)
  {
    assert StartRows(p, rows, 0) == {} && EntryRows(p, rows, 0) == {} && ExitRows(p, rows, 0) == {};
  }

  lemma CountersNext(p: Policy, rows: seq<Row>, n: nat)
    requires 0 < p.tier1Ttl && Grouped(rows) && n < |rows| && CountsAgree(p, rows, n)
    ensures CountsAgree(p, rows, n + 1)
  {
    OneMoreRow(p, rows, n);
    RowFollowsRule(p, rows, n);
  }

  /** What the loop has computed after n rows, by the rule. */
  lemma CountsFollowRule(p: Policy, rows: seq<Row>, n: nat)
    requires 0 < p.tier1Ttl && Grouped(rows) && n <= |rows|
    ensures Coverage(p, rows, n) == StartedSpans(p, rows, n)
    ensures Counters(p, rows, n) == RuleCounters(p, rows, n)
  {
    CoverageFollowsRule(p, rows, n);
    CountersFollowRule(p, rows, n);
  }

  lemma RowFollowsRule(p: Policy, rows: seq<Row>, i: nat)
    requires 0 < p.tier1Ttl && Grouped(rows) && i < |rows|
    ensures Opens(p, rows, i) <==> Starts(p, rows, i)
    ensures Promotes(p, rows, i) <==> Enters(p, rows, i)
    ensures Demotes(p, rows, i) <==> Leaves(p, rows, i)
  {
    OpensIsStarts(p, rows, i);
    RunOutIsFollowed(p, rows, i);
  }

  // ---------------------------------------------------------------- counting

  /** Every promotion is undone by a demotion or leaves its token in Tier 1 after its last row. */
  lemma PromotionsAreConserved(p: Policy, rows: seq<Row>)
    ensures Promotions(p, rows, |rows|) == Demotions(p, rows, |rows|) + LeftInTier1(p, rows, |rows|)
  {
    PromotionsSoFar(p, rows, |rows|);
  }

  lemma {:induction false} PromotionsSoFar(p: Policy, rows: seq<Row>, n: nat)
    requires n <= |rows|
    ensures Promotions(p, rows, n) == Demotions(p, rows, n) + LeftInTier1(p, rows, n)
            + One(0 < n < |rows| && HeldBefore(p, rows, n).Some?)
  {
    if 0 < n {
      PromotionsSoFar(p, rows, n - 1);
    }
  }

  lemma {:induction false} PromotionsOpen(p: Policy, rows: seq<Row>, n: nat)
    requires n <= |rows|
    ensures Promotions(p, rows, n) <= Openings(p, rows, n)
  {
    if 0 < n {
      PromotionsOpen(p, rows, n - 1);
    }
  }

  lemma CountsAreOrdered(p: Policy, rows: seq<Row>)
    ensures Demotions(p, rows, |rows|) <= Promotions(p, rows, |rows|) <= Openings(p, rows, |rows|)
  {
    PromotionsAreConserved(p, rows);
    PromotionsOpen(p, rows, |rows|);
  }

  /** The tokens with coverage, opened by one of the first n rows, that contains the instant t. */
  function CoveredTokens(p: Policy, rows: seq<Row>, n: nat, t: int): set<nat>
    requires n <= |rows|
  {
    if n == 0 then {}
    else CoveredTokens(p, rows, n - 1, t)
         + (if Opens(p, rows, n - 1) && SpanOf(p, rows[n - 1]).Contains(t) then {rows[n - 1].tokenId} else {})
  }

  lemma {:induction false} CoveredTokenHasRow(p: Policy, rows: seq<Row>, n: nat, t: int, token: nat) returns (o: nat)
    requires n <= |rows| && token in CoveredTokens(p, rows, n, t)
    ensures o < n && rows[o].tokenId == token && Opens(p, rows, o) && SpanOf(p, rows[o]).Contains(t)
  {
    if Opens(p, rows, n - 1) && SpanOf(p, rows[n - 1]).Contains(t) && token == rows[n - 1].tokenId {
      o := n - 1;
    } else {
      o := CoveredTokenHasRow(p, rows, n - 1, t, token);
    }
  }

  /** At every instant the intervals in force belong to distinct tokens. */
  lemma {:induction false} OverlapCountsTokens(p: Policy, rows: seq<Row>, n: nat, t: int)
    requires 0 < p.tier1Ttl && Grouped(rows) && n <= |rows|
    ensures Overlap(Coverage(p, rows, n), t) == |CoveredTokens(p, rows, n, t)|
  {
    if 0 < n {
      var i := n - 1;
      OverlapCountsTokens(p, rows, i, t);
      OverlapAppend(Coverage(p, rows, i), if Opens(p, rows, i) then [SpanOf(p, rows[i])] else [], t);
      OpeningTokenIsNew(p, rows, i, t);
    }
  }

  /** A token in force does not open coverage again. */
  lemma OpeningTokenIsNew(p: Policy, rows: seq<Row>, i: nat, t: int)
    requires 0 < p.tier1Ttl && Grouped(rows) && i < |rows|
    ensures Opens(p, rows, i) && SpanOf(p, rows[i]).Contains(t) ==>
      rows[i].tokenId !in CoveredTokens(p, rows, i, t)
  {
    if Opens(p, rows, i) && SpanOf(p, rows[i]).Contains(t) && rows[i].tokenId in CoveredTokens(p, rows, i, t) {
      var o := CoveredTokenHasRow(p, rows, i, t, rows[i].tokenId);
      CoverageOfTokenIsDisjoint(p, rows, o, i);
      assert false;
    }
  }

  lemma {:induction false} CoveredTokensAreEligible(p: Policy, rows: seq<Row>, n: nat, t: int)
    requires n <= |rows|
    ensures CoveredTokens(p, rows, n, t) <= EligibleTokens(p, rows[..n])
  {
    if 0 < n {
      CoveredTokensAreEligible(p, rows, n - 1, t);
      assert rows[..n][..n - 1] == rows[..n - 1];
    }
  }

  /** The peak is the largest number of tokens covered at one instant, so it never exceeds the
      number of eligible tokens. */
  lemma PeakCountsTokens(p: Policy, rows: seq<Row>, peak: int)
    requires 0 < p.tier1Ttl && Grouped(rows)
    requires IsPeak(Coverage(p, rows, |rows|), peak)
    ensures forall t :: |CoveredTokens(p, rows, |rows|, t)| <= peak
    ensures exists t :: |CoveredTokens(p, rows, |rows|, t)| == peak
    ensures peak <= |EligibleTokens(p, rows)|
  {
    forall t
      ensures Overlap(Coverage(p, rows, |rows|), t) == |CoveredTokens(p, rows, |rows|, t)|
    {
      OverlapCountsTokens(p, rows, |rows|, t);
    }
    var t :| Overlap(Coverage(p, rows, |rows|), t) == peak;
    assert |CoveredTokens(p, rows, |rows|, t)| == peak;
    CoveredTokensAreEligible(p, rows, |rows|, t);
    assert rows[..|rows|] == rows;
    FewerMembers(CoveredTokens(p, rows, |rows|, t), EligibleTokens(p, rows));
  }

  lemma {:induction false} CoverageIsNonEmpty(p: Policy, rows: seq<Row>, n: nat)
    requires 0 < p.tier1Ttl && n <= |rows|
    ensures forall i :: 0 <= i < |Coverage(p, rows, n)| ==> Coverage(p, rows, n)[i].start < Coverage(p, rows, n)[i].end
    ensures |Coverage(p, rows, n)| == Openings(p, rows, n)
  {
    if 0 < n {
      CoverageIsNonEmpty(p, rows, n - 1);
    }
  }

  // ---------------------------------------------------------------- the stream

  /** What the loop has computed after n rows. */
  ghost predicate CountsAfter(p: Policy, rows: seq<Row>, n: nat, candidates: int, promotions: int, demotions: int,
                              intervals: seq<Span>)
    requires n <= |rows|
  {
    && candidates == Openings(p, rows, n)
    && promotions == Promotions(p, rows, n)
    && demotions == Demotions(p, rows, n)
    && intervals == Coverage(p, rows, n)
  }

  /** The token counters: the token being read is not counted yet. */
  ghost predicate TokensAfter(p: Policy, rows: seq<Row>, n: nat, evaluated: int, eligible: int, tokenEligible: bool)
    requires n <= |rows|
  {
    && evaluated + (if n == 0 then 0 else 1) == |Tokens(rows[..n])|
    && eligible + (if tokenEligible then 1 else 0) == |EligibleTokens(p, rows[..n])|
    && (tokenEligible <==> 0 < n && rows[n - 1].tokenId in EligibleTokens(p, rows[..n]))
  }

  lemma TokensExtend(p: Policy, rows: seq<Row>, n: nat, evaluated: int, eligible: int, tokenEligible: bool)
    requires Grouped(rows) && n < |rows| && TokensAfter(p, rows, n, evaluated, eligible, tokenEligible)
    ensures var newToken := n == 0 || rows[n].tokenId != rows[n - 1].tokenId;
      TokensAfter(p, rows, n + 1,
                  evaluated + One(newToken && 0 < n),
                  eligible + One(newToken && 0 < n && tokenEligible),
                  (!newToken && tokenEligible) || Eligible(p, rows[n]))
  {
    var token := rows[n].tokenId;
    var seen, eligibleSeen := Tokens(rows[..n]), EligibleTokens(p, rows[..n]);
    TokensPush(p, rows, n);
    EligibleAreTokens(p, rows[..n]);
    if n == 0 || token != rows[n - 1].tokenId {
      NewTokenIsUnseen(p, rows, n, n);
      AddNew(seen, token);
      AddNew(eligibleSeen, token);
    } else {
      LastTokenIsSeen(rows, n);
      AddKnown(seen, token);
      if tokenEligible { AddKnown(eligibleSeen, token); } else { AddNew(eligibleSeen, token); }
    }
  }

  lemma TokensPush(p: Policy, rows: seq<Row>, n: nat)
    requires n < |rows|
    ensures Tokens(rows[..n + 1]) == Tokens(rows[..n]) + {rows[n].tokenId}
    ensures EligibleTokens(p, rows[..n + 1])
         == if Eligible(p, rows[n]) then EligibleTokens(p, rows[..n]) + {rows[n].tokenId}
             else EligibleTokens(p, rows[..n])
  {
    assert rows[..n + 1][..n] == rows[..n];
    assert EligibleTokens(p, rows[..n]) + {} == EligibleTokens(p, rows[..n]);
  }

  lemma LastTokenIsSeen(rows: seq<Row>, n: nat)
    requires 0 < n <= |rows|
    ensures rows[n - 1].tokenId in Tokens(rows[..n])
  {
    assert rows[..n][n - 1] == rows[n - 1];
  }

  lemma AddNew(s: set<nat>, x: nat)
    requires x !in s
    ensures |s + {x}| == |s| + 1
  {
  }

  lemma AddKnown(s: set<nat>, x: nat)
    requires x in s
    ensures s + {x} == s
  {
  }

  lemma {:induction false} NewTokenIsUnseen(p: Policy, rows: seq<Row>, n: nat, m: nat)
    requires Grouped(rows) && m <= n < |rows| && (n == 0 || rows[n].tokenId != rows[n - 1].tokenId)
    ensures rows[n].tokenId !in Tokens(rows[..m])
  {
    if 0 < m {
      NewTokenIsUnseen(p, rows, n, m - 1);
      assert rows[..m][..m - 1] == rows[..m - 1];
      assert rows[m - 1].tokenId != rows[n].tokenId;
    }
  }

  lemma {:induction false} EligibleAreTokens(p: Policy, rows: seq<Row>)
    ensures EligibleTokens(p, rows) <= Tokens(rows)
  {
    if rows != [] {
      EligibleAreTokens(p, rows[..|rows| - 1]);
    }
  }

  /** The promote, refresh or demote branch taken for one row of the current token. */
  method ObserveRow(p: Policy, row: Row, held: Option<int>)
    returns (expiresAt: Option<int>, extended: bool, promoted: bool, demoted: bool)
    ensures expiresAt == HeldNext(p, row, held)
    ensures extended <==> Eligible(p, row) && (held.None? || held.value <= row.receivedAt)
    ensures promoted <==> extended && held.None?
    ensures demoted <==> !Eligible(p, row) && held.Some? && held.value <= row.receivedAt
  {
    var eligible := row.market.Meets(p.tier1Market);
    expiresAt := held;
    extended, promoted, demoted := false, false, false;
    if held.None? && eligible {
      promoted := true;
      extended := true;
      expiresAt := Some(row.receivedAt + p.tier1Ttl);
    } else if held.Some? && row.receivedAt >= held.value {
      if eligible {
        extended := true;
        expiresAt := Some(row.receivedAt + p.tier1Ttl);
      } else {
        expiresAt := None;
        demoted := true;
      }
    }
  }

  /** At the first row of another token the previous one is counted and its state dropped. */
  method TurnToken(currentToken: Option<nat>, row: Row, held: Option<int>, wasEligible: bool, counted: int,
                   eligible: int)
    returns (evaluated: int, eligibleTokens: int, expiresAt: Option<int>, tokenEligible: bool)
    ensures var same := currentToken == Some(row.tokenId);
      && evaluated == counted + One(!same && currentToken.Some?)
      && eligibleTokens == eligible + One(!same && currentToken.Some? && wasEligible)
      && expiresAt == (if same then held else None)
      && tokenEligible == (same && wasEligible)
  {
    evaluated, eligibleTokens, expiresAt, tokenEligible := counted, eligible, held, wasEligible;
    if currentToken != Some(row.tokenId) {
      if currentToken.Some? {
        evaluated := evaluated + 1;
        eligibleTokens := eligibleTokens + One(wasEligible);
      }
      expiresAt := None;
      tokenEligible := false;
    }
  }

  /** The local variables of the loop. Coverage is held exactly while the token is in Tier 1. */
  datatype Progress = Progress(
    currentToken: Option<nat>,
    expiresAt: Option<int>,
    tokenEligible: bool,
    evaluated: int,
    eligibleTokens: int,
    candidates: int,
    promotions: int,
    demotions: int,
    intervals: seq<Span>)

  ghost predicate After(p: Policy, rows: seq<Row>, n: nat, s: Progress)
    requires n <= |rows|
  {
    && StateAfter(p, rows, n, s.currentToken, s.expiresAt)
    && TokensAfter(p, rows, n, s.evaluated, s.eligibleTokens, s.tokenEligible)
    && CountsAfter(p, rows, n, s.candidates, s.promotions, s.demotions, s.intervals)
  }

  /** One turn of the loop. */
  method ReadRow(p: Policy, ghost rows: seq<Row>, ghost n: nat, row: Row, s: Progress) returns (next: Progress)
    requires Grouped(rows) && n < |rows| && row == rows[n] && After(p, rows, n, s)
    ensures After(p, rows, n + 1, next)
  {
    TokensExtend(p, rows, n, s.evaluated, s.eligibleTokens, s.tokenEligible);
    var evaluated, eligibleTokens, expiresAt, tokenEligible :=
      TurnToken(s.currentToken, row, s.expiresAt, s.tokenEligible, s.evaluated, s.eligibleTokens);
    assert expiresAt == HeldBefore(p, rows, n);
    tokenEligible := tokenEligible || row.market.Meets(p.tier1Market);
    var extended, promoted, demoted;
    expiresAt, extended, promoted, demoted := ObserveRow(p, row, expiresAt);
    next := Progress(Some(row.tokenId), expiresAt, tokenEligible, evaluated, eligibleTokens,
                     s.candidates + One(extended), s.promotions + One(promoted), s.demotions + One(demoted),
                     s.intervals + if extended then [SpanOf(p, row)] else []);
  }

  method SimulateRows(rows: seq<Row>, p: Policy) returns (s: Simulation, intervals: seq<Span>)
    requires 0 < p.tier1Ttl && Grouped(rows)
    ensures s.evaluatedTokens == |Tokens(rows)| && s.eligibleTokens == |EligibleTokens(p, rows)|
    ensures CountsAfter(p, rows, |rows|, s.candidateEvents, s.promotions, s.demotions, intervals)
    ensures s.demotions <= s.promotions <= s.candidateEvents == |intervals|
    ensures intervals == StartedSpans(p, rows, |rows|)
    ensures s.candidateEvents == |StartRows(p, rows, |rows|)|
    ensures s.promotions == |EntryRows(p, rows, |rows|)| && s.demotions == |ExitRows(p, rows, |rows|)|
    ensures IsPeak(intervals, s.peakCoverage)
    ensures s.peakCoverage <= s.eligibleTokens
  {
    var state := Progress(None, None, false, 0, 0, 0, 0, 0, []);
    for n := 0 to |rows|
      invariant After(p, rows, n, state)
    {
      state := ReadRow(p, rows, n, rows[n], state);
    }
    assert rows[..|rows|] == rows;
    var evaluated, eligibleTokens := state.evaluated, state.eligibleTokens;
    if state.currentToken.Some? {
      evaluated := evaluated + 1;
      eligibleTokens := eligibleTokens + One(state.tokenEligible);
    }
    intervals := state.intervals;
    var peak := PeakOfCoverage(p, rows, intervals);
    CountsAreOrdered(p, rows);
    CountsFollowRule(p, rows, |rows|);
    s := Simulation(evaluated, eligibleTokens, state.candidates, state.promotions, state.demotions, peak);
  }

  ghost predicate StateAfter(p: Policy, rows: seq<Row>, n: nat, currentToken: Option<nat>, expiresAt: Option<int>)
    requires n <= |rows|
  {
    if n == 0 then currentToken == None && expiresAt == None
    else currentToken == Some(rows[n - 1].tokenId) && expiresAt == HeldAfter(p, rows, n - 1)
  }

  method PeakOfCoverage(p: Policy, rows: seq<Row>, intervals: seq<Span>) returns (peak: int)
    requires 0 < p.tier1Ttl && Grouped(rows) && intervals == Coverage(p, rows, |rows|)
    ensures IsPeak(intervals, peak)
    ensures |intervals| == Openings(p, rows, |rows|)
    ensures peak <= |EligibleTokens(p, rows)|
  {
    CoverageIsNonEmpty(p, rows, |rows|);
    peak := PeakIntervals(intervals);
    PeakCountsTokens(p, rows, peak);
  }
}
