/** The orchestration rule: which analysis tier one evidence record deserves. Amounts and ratios
    are reals, times and durations are integers. The digest of an evidence record is the record
    itself (an injective digest); `otherIdentity` stands for the observation and snapshot ids and the
    admission time, which no rule reads but the digest covers. */
module CandidatePolicy {
  import opened Wrappers

  datatype Tier = Tier0 | Tier1 | Tier2 | Tier3 | Tier4

  function Rank(tier: Tier): nat {
    match tier
    case Tier0 => 0
    case Tier1 => 1
    case Tier2 => 2
    case Tier3 => 3
    case Tier4 => 4
  }

  datatype Reason =
    | MarketActivity | WatchState | BoostActivity | SecurityChange
    | CoverageResurrection | EvidenceStale | ActivityCooling

  /** The market facts of one observation. */
  datatype Market = Market(
    liquidityUsd: Option<real>,
    volumeM5Usd: Option<real>,
    buysM5: Option<int>,
    sellsM5: Option<int>)
  {
    function Transactions(): Option<int> {
      if buysM5.None? || sellsM5.None? then None else Some(buysM5.value + sellsM5.value)
    }

    function VolumeLiquidityRatio(): Option<real> {
      if volumeM5Usd.None? || liquidityUsd.None? || liquidityUsd.value == 0.0 then None
      else Some(volumeM5Usd.value / liquidityUsd.value)
    }

    /** All three thresholds are met by facts that are present. */
    predicate Meets(floor: Thresholds) {
      && liquidityUsd.Some? && liquidityUsd.value >= floor.liquidityUsd
      && Transactions().Some? && Transactions().value >= floor.transactionsM5
      && VolumeLiquidityRatio().Some? && VolumeLiquidityRatio().value >= floor.volumeLiquidityRatio
    }
  }

  datatype Thresholds = Thresholds(liquidityUsd: real, transactionsM5: int, volumeLiquidityRatio: real)

  datatype Evidence = Evidence(
    tokenId: nat,
    evaluatedAt: int,
    watermark: int,
    lifecycleState: string,
    coverageClass: string,
    market: Market,
    observationReceivedAt: Option<int>,
    boostEventId: Option<nat>,
    boostReceivedAt: Option<int>,
    securityReceivedAt: Option<int>,
    coverageResurrection: bool,
    holderReceivedAt: Option<int>,
    holderTop10Pct: Option<real>,
    traderReceivedAt: Option<int>,
    uniqueTraders: Option<int>,
    totalTrades: Option<int>,
    walletEvidenceReceivedAt: Option<int>,
    commonFunderSharePct: Option<real>,
    liquidityEvidenceReceivedAt: Option<int>,
    liquidityRemovalPct: Option<real>,
    otherIdentity: nat)
  {
    /** The checks made when the record is built: nothing was received after the watermark. */
    predicate Accepted() {
      && watermark <= evaluatedAt
      && forall t :: t in ReceiptTimes() && t.Some? ==> t.value <= watermark
    }

    function ReceiptTimes(): seq<Option<int>> {
      [observationReceivedAt, boostReceivedAt, securityReceivedAt, holderReceivedAt,
       traderReceivedAt, walletEvidenceReceivedAt, liquidityEvidenceReceivedAt]
    }
  }

  datatype Decision = Decision(eligible: bool, target: Tier, reason: Reason, coverageUntil: Option<int>)

  datatype Policy = Policy(
    tier1Market: Thresholds,
    tier2Market: Thresholds,
    tier1Ttl: int,
    tier2Ttl: int,
    tier3Ttl: int,
    coverageInterval: int,
    securityFreshness: int,
    tasksPerMinute: int,
    maxActiveCoverage: int,
    maxTier3Candidates: int,
    tier3HolderTop10Pct: real,
    tier3MaxUniqueTraders: int,
    tier3MinTotalTrades: int,
    tier3CommonFunderSharePct: real,
    tier3LiquidityRemovalPct: real)
  {
    predicate SecurityFresh(e: Evidence) {
      e.securityReceivedAt.Some? && e.evaluatedAt - e.securityReceivedAt.value <= securityFreshness
    }

    /** Any of the four deep-review reasons. */
    predicate DeepReview(e: Evidence) {
      || (e.holderTop10Pct.Some? && e.holderTop10Pct.value >= tier3HolderTop10Pct)
      || (&& e.uniqueTraders.Some? && e.totalTrades.Some?
          && e.totalTrades.value >= tier3MinTotalTrades && e.uniqueTraders.value <= tier3MaxUniqueTraders)
      || (e.commonFunderSharePct.Some? && e.commonFunderSharePct.value >= tier3CommonFunderSharePct)
      || (e.liquidityRemovalPct.Some? && e.liquidityRemovalPct.value >= tier3LiquidityRemovalPct)
    }

    function Evaluate(e: Evidence, current: Tier): Decision {
      var marketOk := e.market.Meets(tier1Market);
      if (current == Tier2 || current == Tier3) && DeepReview(e) then
        Decision(true, Tier3, SecurityChange, Some(e.evaluatedAt + tier3Ttl))
      else if e.boostEventId.None? && !e.coverageResurrection && !marketOk then
        Decision(false, Tier0, if current != Tier0 then EvidenceStale else ActivityCooling, None)
      else
        var reason :=
          if e.boostEventId.Some? then BoostActivity
          else if e.coverageResurrection then CoverageResurrection
          else if e.lifecycleState == "WATCH" && marketOk then WatchState
          else MarketActivity;
        var target :=
          if (current == Tier1 || current == Tier2) && e.market.Meets(tier2Market) && SecurityFresh(e)
          then Tier2 else Tier1;
        Decision(true, target, reason, Some(e.evaluatedAt + if target == Tier2 then tier2Ttl else tier1Ttl))
    }
  }

  /** Some fact keeps the token interesting outside a deep review. */
  predicate Active(p: Policy, e: Evidence) {
    e.boostEventId.Some? || e.coverageResurrection || e.market.Meets(p.tier1Market)
  }

  /** When each tier is the target, for every current tier: a deep review needs Tier 2 or 3, the
      investigation tier needs Tier 1 or 2 (so Tier 3 falls straight to Tier 1), the pre-trade
      tier is never reached, and only an ineligible record has no coverage. */
  lemma EvaluateTargets(p: Policy, e: Evidence, current: Tier)
    ensures var d := p.Evaluate(e, current);
      var deep := current in {Tier2, Tier3} && p.DeepReview(e);
      var investigate := current in {Tier1, Tier2} && e.market.Meets(p.tier2Market) && p.SecurityFresh(e);
      && (d.target == Tier3 <==> deep)
      && (d.target == Tier2 <==> !deep && Active(p, e) && investigate)
      && (d.target == Tier1 <==> !deep && Active(p, e) && !investigate)
      && (d.target == Tier0 <==> !deep && !Active(p, e))
      && d.target != Tier4
      && (d.eligible <==> d.target != Tier0)
      && (d.coverageUntil.Some? <==> d.eligible)
  {
  }

  /** A rule cannot jump: one evaluation raises a non-pre-trade tier by at most one step. */
  lemma EvaluateRaisesByOne(p: Policy, e: Evidence, current: Tier)
    requires current != Tier4
    ensures Rank(p.Evaluate(e, current).target) <= Rank(current) + 1
  {
    EvaluateTargets(p, e, current);
  }

  /** Coverage granted by a record ends after the record was evaluated, for positive lifetimes. */
  lemma EvaluateCoverageIsFuture(p: Policy, e: Evidence, current: Tier)
    requires 0 < p.tier1Ttl && 0 < p.tier2Ttl && 0 < p.tier3Ttl
    requires p.Evaluate(e, current).coverageUntil.Some?
    ensures e.evaluatedAt < p.Evaluate(e, current).coverageUntil.value
  {
  }

  /** An accepted record holds no fact from after its evaluation, so fresh security evidence was
      received within the freshness window that ends at the evaluation. */
  lemma AcceptedIsPast(p: Policy, e: Evidence)
    requires e.Accepted()
    ensures forall i :: 0 <= i < |e.ReceiptTimes()| && e.ReceiptTimes()[i].Some? ==>
      e.ReceiptTimes()[i].value <= e.evaluatedAt
    ensures p.SecurityFresh(e) ==> 0 <= e.evaluatedAt - e.securityReceivedAt.value <= p.securityFreshness
  {
    assert e.ReceiptTimes()[2] == e.securityReceivedAt;
  }

  // ---------------------------------------------------------------- the rule in evidence fields

  /** The three thresholds, in the fields of the observation. */
  lemma MeetsInFields(m: Market, floor: Thresholds)
    ensures m.Meets(floor) <==>
      && m.liquidityUsd.Some? && m.volumeM5Usd.Some? && m.buysM5.Some? && m.sellsM5.Some?
      && m.liquidityUsd.value != 0.0
      && floor.liquidityUsd <= m.liquidityUsd.value
      && floor.transactionsM5 <= m.buysM5.value + m.sellsM5.value
      && floor.volumeLiquidityRatio <= m.volumeM5Usd.value / m.liquidityUsd.value
  {
  }

  /** For known positive liquidity the ratio is a bound on the volume. */
  lemma MeetsByVolume(m: Market, floor: Thresholds)
    requires m.liquidityUsd.Some? && m.volumeM5Usd.Some? && m.buysM5.Some? && m.sellsM5.Some?
    requires 0.0 < m.liquidityUsd.value
    ensures m.Meets(floor) <==>
      && floor.liquidityUsd <= m.liquidityUsd.value
      && floor.transactionsM5 <= m.buysM5.value + m.sellsM5.value
      && floor.volumeLiquidityRatio * m.liquidityUsd.value <= m.volumeM5Usd.value
  {
    QuotientBound(m.volumeM5Usd.value, m.liquidityUsd.value, floor.volumeLiquidityRatio);
  }

  lemma QuotientBound(a: real, b: real, r: real)
    requires 0.0 < b
    ensures r <= a / b <==> r * b <= a
  {
    assert a == (a / b) * b;
    if r <= a / b {
      assert r * b <= (a / b) * b;
    } else {
      assert (a / b) * b < r * b;
    }
  }

  /** One of the four reasons for a deep review. */
  lemma DeepReviewInFields(p: Policy, e: Evidence)
    ensures p.DeepReview(e) <==>
      || (e.holderTop10Pct.Some? && p.tier3HolderTop10Pct <= e.holderTop10Pct.value)
      || (&& e.uniqueTraders.Some? && e.totalTrades.Some?
          && p.tier3MinTotalTrades <= e.totalTrades.value && e.uniqueTraders.value <= p.tier3MaxUniqueTraders)
      || (e.commonFunderSharePct.Some? && p.tier3CommonFunderSharePct <= e.commonFunderSharePct.value)
      || (e.liquidityRemovalPct.Some? && p.tier3LiquidityRemovalPct <= e.liquidityRemovalPct.value)
  {
  }

  lemma SecurityFreshInFields(p: Policy, e: Evidence)
    ensures p.SecurityFresh(e) <==>
      e.securityReceivedAt.Some? && e.evaluatedAt <= e.securityReceivedAt.value + p.securityFreshness
  {
  }

  /** How long the coverage of a decision lasts, and its reason. */
  lemma EvaluateLifetimeAndReason(p: Policy, e: Evidence, current: Tier)
    ensures var d := p.Evaluate(e, current);
      && (d.target == Tier1 ==> d.coverageUntil == Some(e.evaluatedAt + p.tier1Ttl))
      && (d.target == Tier2 ==> d.coverageUntil == Some(e.evaluatedAt + p.tier2Ttl))
      && (d.target == Tier3 ==> d.coverageUntil == Some(e.evaluatedAt + p.tier3Ttl) && d.reason == SecurityChange)
      && (d.target == Tier0 ==> d.reason == if current == Tier0 then ActivityCooling else EvidenceStale)
      && (d.target in {Tier1, Tier2} ==>
            && (d.reason == BoostActivity <==> e.boostEventId.Some?)
            && (d.reason == CoverageResurrection <==> e.boostEventId.None? && e.coverageResurrection)
            && (d.reason == WatchState <==>
                  e.boostEventId.None? && !e.coverageResurrection && e.lifecycleState == "WATCH")
            && (d.reason == MarketActivity <==>
                  e.boostEventId.None? && !e.coverageResurrection && e.lifecycleState != "WATCH"))
  {
  }
}
