/** A run in which the unlocked tier read of the service takes a token from Tier 1 to Tier 3. */
module StaleTierRead {
  import opened Wrappers
  import opened CandidatePolicy
  import opened CandidateTiers
  import opened CandidateTierRuns

  /** A market that meets the Tier 2 thresholds. */
  function BusyMarket(p: Policy): Market {
    var liquidity := if p.tier2Market.liquidityUsd < 1.0 then 1.0 else p.tier2Market.liquidityUsd;
    Market(Some(liquidity), Some(liquidity * p.tier2Market.volumeLiquidityRatio),
        Some(p.tier2Market.transactionsM5), Some(0))
  }

  lemma RatioOfProduct(x: real, y: real)
    requires x != 0.0
    ensures (x * y) / x == y
  {
  }

  lemma BusyMarketMeets(p: Policy)
    ensures BusyMarket(p).Meets(p.tier2Market)
  {
    RatioOfProduct(BusyMarket(p).liquidityUsd.value, p.tier2Market.volumeLiquidityRatio);
  }

  const QUIET := Market(None, None, None, None)

  /** Evidence of boost event `at`, received and evaluated at the same moment. */
  function Boosted(at: nat, market: Market, security: Option<int>, holder: Option<real>): Evidence {
    Evidence(0, at, at, "ACTIVE", "HOT", market, Some(at), Some(at), Some(at), security, false, Some(at), holder,
             None, None, None, None, None, None, None, 0)
  }

  /** Nominated, investigated, back to nominated; the last record shows a concentrated holder. */
  function Records(p: Policy): seq<Evidence> {
    [Boosted(1, QUIET, None, None),
     Boosted(2, BusyMarket(p), Some(2), None),
     Boosted(3, QUIET, None, None),
     Boosted(4, QUIET, None, Some(p.tier3HolderTop10Pct))]
  }

  /** One epoch in which the fourth evaluation read the tier after the second was stored. */
  function SkippingRun(p: Policy): seq<Event> {
    [Evaluated(0, Records(p)[0], Tier0), Evaluated(0, Records(p)[1], Tier1),
     Evaluated(0, Records(p)[2], Tier2), Evaluated(0, Records(p)[3], Tier2)]
  }

  const EMPTY := Tables(map[], map[])
  const TOKEN := StateKey(0, 0)

  /** The tables after the first n evaluations. */
  function After(p: Policy, n: nat): Tables
    requires n <= 4
  {
    Run(EMPTY, p, SkippingRun(p)[..n])
  }

  function TierAfter(p: Policy, n: nat): Tier
    requires n <= 4
  {
    TierOf(After(p, n).states, TOKEN)
  }

  /** Only the one token is recorded, with this tier and watermark. */
  predicate Stands(db: Tables, tier: Tier, watermark: int) {
    db.states.Keys == {TOKEN} && db.states[TOKEN].tier == tier && db.states[TOKEN].inputWatermark == watermark
  }

  lemma NextEvaluation(p: Policy, n: nat)
    requires n < 4
    ensures After(p, n + 1) == EvaluateAt(After(p, n), p, 0, Records(p)[n], SkippingRun(p)[n].readTier)
  {
    var run := SkippingRun(p);
    assert run[..n + 1][..n] == run[..n];
  }

  /** An evaluation whose record is newer than the stored one and whose target differs from the
      stored tier is stored, while Tier 3 is empty. */
  lemma NewerRecordIsStored(db: Tables, p: Policy, e: Evidence, readTier: Tier)
    requires e.tokenId == 0 && p.Evaluate(e, readTier).eligible && 0 < p.maxTier3Candidates
    requires db.states.Keys <= {TOKEN} && (TOKEN in db.states ==> db.states[TOKEN].inputWatermark < e.watermark)
    requires p.Evaluate(e, readTier).target != TierOf(db.states, TOKEN) && TierOf(db.states, TOKEN) != Tier3
    ensures Stands(EvaluateAt(db, p, 0, e, readTier), p.Evaluate(e, readTier).target, e.watermark)
  {
    assert forall k :: k in db.states ==> k == TOKEN;
    assert Tier3Keys(db.states) == {};
  }

  lemma SkippingDecisions(p: Policy)
    requires 0 <= p.securityFreshness
    ensures p.Evaluate(Records(p)[0], Tier0).target == Tier1
    ensures p.Evaluate(Records(p)[1], Tier1).target == Tier2
    ensures p.Evaluate(Records(p)[2], Tier2).target == Tier1
    ensures p.Evaluate(Records(p)[3], Tier2).target == Tier3
  {
    BusyMarketMeets(p);
  }

  predicate AllAccepted(p: Policy) {
    forall i :: 0 <= i < 4 ==> Records(p)[i].Accepted()
  }

  /** Evaluation i was decided against the tier stored after the first n evaluations. */
  predicate ReadsTierAfter(p: Policy, i: nat, n: nat)
    requires i < 4 && n <= 4
  {
    SkippingRun(p)[i].readTier == TierAfter(p, n)
  }

  lemma RecordsAreAccepted(p: Policy)
    ensures AllAccepted(p)
  {
  }

  lemma FirstTwoAreStored(p: Policy)
    requires 0 <= p.securityFreshness && 0 < p.maxTier3Candidates
    ensures TierAfter(p, 0) == Tier0 && Stands(After(p, 1), Tier1, 1) && Stands(After(p, 2), Tier2, 2)
  {
    SkippingDecisions(p);
    assert After(p, 0) == EMPTY;
    NextEvaluation(p, 0);
    NewerRecordIsStored(EMPTY, p, Records(p)[0], Tier0);
    NextEvaluation(p, 1);
    NewerRecordIsStored(After(p, 1), p, Records(p)[1], Tier1);
  }

  lemma LastTwoAreStored(p: Policy)
    requires 0 <= p.securityFreshness && 0 < p.maxTier3Candidates && Stands(After(p, 2), Tier2, 2)
    ensures Stands(After(p, 3), Tier1, 3) && Stands(After(p, 4), Tier3, 4)
  {
    SkippingDecisions(p);
    NextEvaluation(p, 2);
    NewerRecordIsStored(After(p, 2), p, Records(p)[2], Tier2);
    NextEvaluation(p, 3);
    NewerRecordIsStored(After(p, 3), p, Records(p)[3], Tier2);
  }

  lemma RunIsInOrder(p: Policy)
    ensures InOrder(0, SkippingRun(p))
  {
    forall i | 0 <= i < 4
      ensures TimeAfter(0, SkippingRun(p)[..i]) <= SkippingRun(p)[i].Time()
    {
      assert 0 < i ==> SkippingRun(p)[..i][i - 1] == SkippingRun(p)[i - 1];
    }
  }

  /** Under every policy with room in Tier 3 the unlocked tier read can skip a rung, from empty tables
      and with accepted records in order: the first three evaluations read the stored tier, the fourth
      read it after the second was stored and enters Tier 3 from Tier 1. */
  lemma StaleReadEntersTier3FromTier1(p: Policy)
    requires 0 <= p.securityFreshness && 0 < p.maxTier3Candidates
    ensures InOrder(0, SkippingRun(p)) && AllAccepted(p)
    ensures ReadsTierAfter(p, 0, 0) && ReadsTierAfter(p, 1, 1) && ReadsTierAfter(p, 2, 2)
    ensures ReadsTierAfter(p, 3, 2)
    ensures TierAfter(p, 3) == Tier1 && TierAfter(p, 4) == Tier3
  {
    RecordsAreAccepted(p);
    RunIsInOrder(p);
    FirstTwoAreStored(p);
    LastTwoAreStored(p);
  }
}
