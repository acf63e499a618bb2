/** Reconstruction of a token's state as of a moment, from a history that may also hold facts of
    the future. Ids stand for their position in text order; `payload` stands for the remaining fields of a fact. */
module TokenStateAsOf {
  import opened Wrappers
  import opened Sorting
  import opened AsOfQueries

  datatype Discovery = Discovery(id: nat, receivedAt: int, payload: nat)
  datatype Observation = Observation(id: nat, pairId: nat, receivedAt: int, liquidityUsd: Option<real>, payload: nat)
  datatype Lifecycle = Lifecycle(id: nat, decidedAt: int, inputWatermark: int, newState: string, payload: nat)
  datatype Coverage = Coverage(id: nat, decidedAt: int, effectiveAt: int, payload: nat)
  datatype Candidate = Candidate(id: nat, candidateAt: int, inputWatermark: int, payload: nat)
  datatype CandidateTier = CandidateTier(id: nat, decidedAt: int, inputWatermark: int, payload: nat)
  datatype PairFact = PairFact(id: nat, pairId: nat, receivedAt: int, payload: nat)
  /** A boost, metadata or security fact. */
  datatype Enrichment = Enrichment(id: nat, receivedAt: int, payload: nat)
  datatype Selective = Selective(id: nat, family: Family, receivedAt: int, acquisitionMode: AcquisitionMode,
    payload: nat)
  datatype Context = Context(id: nat, bucketEnd: int, receivedAt: int, payload: nat)

  datatype History = History(
    identity: nat,
    epochDataValid: bool,
    discoveries: seq<Discovery>,
    observations: seq<Observation>,
    lifecycle: seq<Lifecycle>,
    coverage: seq<Coverage>,
    candidates: seq<Candidate>,
    candidateTiers: seq<CandidateTier>,
    pairFacts: seq<PairFact>,
    boosts: seq<Enrichment>,
    metadata: seq<Enrichment>,
    security: seq<Enrichment>,
    selective: seq<Selective>,
    context: seq<Context>)

  datatype Family =
    | HolderSnapshots | TraderDistributionSnapshots | CreatorHistorySnapshots | SecurityFeatureSnapshots
    | LiquidityEventEvidence | WalletRelationshipEdges | WalletClusterSnapshots | FundingRelationshipEvidence
    | OtherFamily(name: string)

  datatype AcquisitionMode = HistoricallyAvailable | RetrospectivelyReconstructed | OtherMode(name: string)

  // ---------------------------------------------------------------- visibility and sort keys

  function DiscoveryKey(f: Discovery): Key { Key(f.receivedAt, 0, f.id) }
  function ObservationKey(f: Observation): Key { Key(f.receivedAt, 0, f.id) }
  function LifecycleKey(f: Lifecycle): Key { Key(f.decidedAt, 0, f.id) }
  function CoverageKey(f: Coverage): Key { Key(f.effectiveAt, f.decidedAt, f.id) }
  function CandidateKey(f: Candidate): Key { Key(f.candidateAt, 0, f.id) }
  function TierKey(f: CandidateTier): Key { Key(f.decidedAt, 0, f.id) }
  function PairFactKey(f: PairFact): Key { Key(f.receivedAt, 0, f.id) }
  function EnrichmentKey(f: Enrichment): Key { Key(f.receivedAt, 0, f.id) }
  function SelectiveKey(f: Selective): Key { Key(f.receivedAt, 0, f.id) }
  function ContextKey(f: Context): Key { Key(f.receivedAt, f.bucketEnd, f.id) }

  function DiscoveryTime(f: Discovery): int { f.receivedAt }
  function ObservationTime(f: Observation): int { f.receivedAt }
  function LifecycleTime(f: Lifecycle): int { f.decidedAt }
  function CandidateTime(f: Candidate): int { f.candidateAt }
  function TierTime(f: CandidateTier): int { f.decidedAt }
  function PairFactTime(f: PairFact): int { f.receivedAt }
  function EnrichmentTime(f: Enrichment): int { f.receivedAt }
  function ContextTime(f: Context): int { f.receivedAt }
  function SelectiveTime(f: Selective): int { f.receivedAt }

  function DiscoverySeen(t: int): Discovery -> bool { (f: Discovery) => f.receivedAt <= t }
  function ObservationSeen(t: int): Observation -> bool { (f: Observation) => f.receivedAt <= t }
  function LifecycleSeen(t: int): Lifecycle -> bool {
    (f: Lifecycle) => f.decidedAt <= t && f.inputWatermark <= f.decidedAt
  }
  function CoverageSeen(t: int): Coverage -> bool { (f: Coverage) => f.decidedAt <= t && f.effectiveAt <= t }
  function CandidateSeen(t: int): Candidate -> bool { (f: Candidate) => f.candidateAt <= t && f.inputWatermark <= t }
  function TierSeen(t: int): CandidateTier -> bool { (f: CandidateTier) => f.decidedAt <= t && f.inputWatermark <= t }
  function PairFactSeen(t: int): PairFact -> bool { (f: PairFact) => f.receivedAt <= t }
  function EnrichmentSeen(t: int): Enrichment -> bool { (f: Enrichment) => f.receivedAt <= t }
  function SelectiveSeen(t: int): Selective -> bool {
    (f: Selective) => f.acquisitionMode == HistoricallyAvailable && f.receivedAt <= t
  }
  function ContextSeen(t: int): Context -> bool { (f: Context) => f.receivedAt <= t && f.bucketEnd <= t }

  // ---------------------------------------------------------------- validation

  datatype ResearchError = InvalidEpoch | InvalidFacts

  predicate FactsValid(h: History) {
    && (forall i :: 0 <= i < |h.lifecycle| ==> h.lifecycle[i].inputWatermark <= h.lifecycle[i].decidedAt)
    && (forall i :: 0 <= i < |h.context| ==> h.context[i].bucketEnd <= h.context[i].receivedAt)
    && (forall i :: 0 <= i < |h.candidates| ==> h.candidates[i].inputWatermark <= h.candidates[i].candidateAt)
    && (forall i :: 0 <= i < |h.candidateTiers| ==> h.candidateTiers[i].inputWatermark <= h.candidateTiers[i].decidedAt)
    && (forall i :: 0 <= i < |h.selective| ==> !h.selective[i].acquisitionMode.OtherMode?)
  }

  // ---------------------------------------------------------------- selected pair

  /** Known liquidity first, then liquidity, receipt time and pair id. */
  predicate RankLe(a: Observation, b: Observation) {
    var x, y := a.liquidityUsd.GetOr(-1.0), b.liquidityUsd.GetOr(-1.0);
    || (a.liquidityUsd.None? && b.liquidityUsd.Some?)
    || (a.liquidityUsd.Some? == b.liquidityUsd.Some?
        && (|| x < y
            || (x == y && a.receivedAt < b.receivedAt)
            || (x == y && a.receivedAt == b.receivedAt && a.pairId <= b.pairId)))
  }

  /** The last observation of each pair. */
  function LatestOfPairs(observations: seq<Observation>): map<nat, Observation> {
    if observations == [] then map[]
    else
      var last := observations[|observations| - 1];
      LatestOfPairs(observations[..|observations| - 1])[last.pairId := last]
  }

  /** The best ranked last observation, scanning pairs in order of their latest observation. */
  function BestOfPairs(observations: seq<Observation>): seq<Observation> {
    if observations == [] then []
    else
      var last := observations[|observations| - 1];
      Filter(BestOfPairs(observations[..|observations| - 1]), (o: Observation) => o.pairId != last.pairId) + [last]
  }

  function MaxByRank(items: seq<Observation>): Observation
    requires items != []
  {
    var last := items[|items| - 1];
    if |items| == 1 then last
    else
      var best := MaxByRank(items[..|items| - 1]);
      if RankLe(last, best) then best else last
  }

  function SelectPair(observations: seq<Observation>): Option<nat> {
    if observations == [] then None else Some(MaxByRank(BestOfPairs(observations)).pairId)
  }

  lemma {:induction false} MaxByRankIsGreatest(items: seq<Observation>)
    requires items != []
    ensures MaxByRank(items) in items
    ensures forall i :: 0 <= i < |items| ==> RankLe(items[i], MaxByRank(items))
  {
    if 1 < |items| {
      MaxByRankIsGreatest(items[..|items| - 1]);
    }
  }

  /** The scanned list holds exactly the last observation of every pair. */
  lemma {:induction false} BestOfPairsAreLatest(observations: seq<Observation>, o: Observation)
    ensures o in BestOfPairs(observations) <==>
            o.pairId in LatestOfPairs(observations) && LatestOfPairs(observations)[o.pairId] == o
  {
    if observations != [] {
      var n := |observations| - 1;
      var last := observations[n];
      BestOfPairsAreLatest(observations[..n], o);
      FilterMembers(BestOfPairs(observations[..n]), (o: Observation) => o.pairId != last.pairId, o);
    }
  }

  /** Observation i is the last of the pair. */
  predicate IsLastOf(observations: seq<Observation>, pair: nat, i: nat) {
    && i < |observations| && observations[i].pairId == pair
    && forall j :: i < j < |observations| ==> observations[j].pairId != pair
  }

  /** The map holds exactly the last observation of every pair that occurs. */
  lemma {:induction false} LatestOfPairIsLast(observations: seq<Observation>, pair: nat) returns (i: nat)
    ensures pair in LatestOfPairs(observations) ==>
            IsLastOf(observations, pair, i) && observations[i] == LatestOfPairs(observations)[pair]
    ensures pair !in LatestOfPairs(observations) ==>
            forall k :: 0 <= k < |observations| ==> observations[k].pairId != pair
  {
    i := 0;
    if observations != [] {
      var n := |observations| - 1;
      i := LatestOfPairIsLast(observations[..n], pair);
      if observations[n].pairId == pair {
        i := n;
      }
    }
  }

  /** The selected pair is the unique maximum of the ranking over each pair's last observation. */
  lemma SelectedPairIsUniqueMaximum(observations: seq<Observation>)
    requires observations != []
    ensures var latest := LatestOfPairs(observations);
      && SelectPair(observations).Some?
      && SelectPair(observations).value in latest
      && forall q :: q in latest && q != SelectPair(observations).value ==>
           RankLe(latest[q], latest[SelectPair(observations).value])
           && !RankLe(latest[SelectPair(observations).value], latest[q])
  {
    var latest := LatestOfPairs(observations);
    var items := BestOfPairs(observations);
    var best := MaxByRank(items);
    MaxByRankIsGreatest(items);
    BestOfPairsAreLatest(observations, best);
    forall q | q in latest && q != best.pairId
      ensures RankLe(latest[q], latest[best.pairId]) && !RankLe(latest[best.pairId], latest[q])
    {
      LatestHasItsPair(observations, q);
      BestOfPairsAreLatest(observations, latest[q]);
      var i :| 0 <= i < |items| && items[i] == latest[q];
      assert RankLe(items[i], best);
    }
  }

  lemma {:induction false} LatestHasItsPair(observations: seq<Observation>, q: nat)
    requires q in LatestOfPairs(observations)
    ensures LatestOfPairs(observations)[q].pairId == q
  {
    if observations[|observations| - 1].pairId != q {
      LatestHasItsPair(observations[..|observations| - 1], q);
    }
  }

  /** The dictionary loop and the maximum of its values. */
  method SelectPairLoop(observations: seq<Observation>) returns (pair: Option<nat>)
    ensures pair == SelectPair(observations)
  {
    var latest: map<nat, Observation> := map[];
    for k := 0 to |observations|
      invariant latest == LatestOfPairs(observations[..k])
    {
      assert observations[..k + 1][..k] == observations[..k];
      latest := latest[observations[k].pairId := observations[k]];
    }
    assert observations[..|observations|] == observations;
    if latest == map[] {
      EmptyHasNoPairs(observations);
      return None;
    }
    EmptyHasNoPairs(observations);
    SelectedPairIsUniqueMaximum(observations);
    var best :| best in latest;
    var rest := latest.Keys - {best};
    while rest != {}
      invariant rest <= latest.Keys && best in latest
      invariant SelectPair(observations).value in rest + {best}
      decreases rest
    {
      var q :| q in rest;
      rest := rest - {q};
      if !RankLe(latest[q], latest[best]) {
        best := q;
      }
    }
    return Some(best);
  }

  lemma EmptyHasNoPairs(observations: seq<Observation>)
    ensures LatestOfPairs(observations) == map[] <==> observations == []
  {
    if observations != [] {
      assert observations[|observations| - 1].pairId in LatestOfPairs(observations);
    }
  }

  // ---------------------------------------------------------------- the state

  datatype DecisionState = DecisionState(
    lifecycle: Option<Lifecycle>,
    admissionAt: Option<int>,
    coverage: Option<Coverage>,
    candidate: Option<Candidate>,
    candidateTier: Option<CandidateTier>)

  datatype MarketState = MarketState(
    selectedPair: Option<nat>,
    currentObservation: Option<Observation>,
    observationHistory: seq<Observation>,
    pairFact: Option<PairFact>)

  datatype EnrichmentState = EnrichmentState(
    boost: Option<Enrichment>,
    previousBoost: Option<Enrichment>,
    firstBoostReceivedAt: Option<int>,
    metadata: Option<Enrichment>,
    security: Option<Enrichment>,
    context: Option<Context>)

  datatype SelectiveState = SelectiveState(
    holder: Option<Selective>,
    trader: Option<Selective>,
    creator: Option<Selective>,
    securityFeatures: Option<Selective>,
    liquidityEvents: seq<Selective>,
    walletRelationships: seq<Selective>,
    walletClusters: seq<Selective>,
    fundingRelationships: seq<Selective>)

  datatype TokenState = TokenState(
    identity: nat,
    decisionAt: int,
    identityKnown: bool,
    decisions: DecisionState,
    market: MarketState,
    enrichment: EnrichmentState,
    selective: SelectiveState,
    watermark: Option<int>)

  function Discoveries(h: History, t: int): seq<Discovery> {
    SortByKey(Filter(h.discoveries, DiscoverySeen(t)), DiscoveryKey)
  }

  function Observations(h: History, t: int): seq<Observation> {
    SortByKey(Filter(h.observations, ObservationSeen(t)), ObservationKey)
  }

  function Boosts(h: History, t: int): seq<Enrichment> {
    SortByKey(Filter(h.boosts, EnrichmentSeen(t)), EnrichmentKey)
  }

  function Deep(h: History, t: int): seq<Selective> { Filter(h.selective, SelectiveSeen(t)) }

  function InFamily(family: Family): Selective -> bool { (f: Selective) => f.family == family }

  function IsNew(f: Lifecycle): bool { f.newState == "NEW" }

  function MinTime(times: seq<int>): Option<int> {
    if times == [] then None
    else
      var m := MinTime(times[..|times| - 1]);
      if m.Some? && m.value <= times[|times| - 1] then m else Some(times[|times| - 1])
  }

  function MaxTime(times: seq<int>): Option<int> {
    if times == [] then None
    else
      var m := MaxTime(times[..|times| - 1]);
      if m.Some? && times[|times| - 1] <= m.value then m else Some(times[|times| - 1])
  }

  function Times<T>(items: seq<T>, time: T -> int): (r: seq<int>)
    ensures |r| == |items| && forall i :: 0 <= i < |items| ==> r[i] == time(items[i])
  {
    seq(|items|, i requires 0 <= i < |items| => time(items[i]))
  }

  function Decisions(h: History, t: int): DecisionState {
    DecisionState(
      Latest(h.lifecycle, LifecycleSeen(t), LifecycleKey),
      MinTime(Times(Filter(Filter(h.lifecycle, LifecycleSeen(t)), IsNew), LifecycleTime)),
      Latest(h.coverage, CoverageSeen(t), CoverageKey),
      Latest(h.candidates, CandidateSeen(t), CandidateKey),
      Latest(h.candidateTiers, TierSeen(t), TierKey))
  }

  function OfPair(pair: Option<nat>): Observation -> bool { (o: Observation) => Some(o.pairId) == pair }

  function PairFactOf(pair: Option<nat>): PairFact -> bool { (f: PairFact) => Some(f.pairId) == pair }

  function MarketOf(h: History, t: int): MarketState {
    var pair := SelectPair(Observations(h, t));
    var history := Filter(Observations(h, t), OfPair(pair));
    MarketState(pair, if history == [] then None else Some(history[|history| - 1]), history,
                Latest(Filter(h.pairFacts, PairFactSeen(t)), PairFactOf(pair), PairFactKey))
  }

  function EnrichmentOf(h: History, t: int): EnrichmentState {
    var boosts := Boosts(h, t);
    EnrichmentState(
      if boosts == [] then None else Some(boosts[|boosts| - 1]),
      if |boosts| < 2 then None else Some(boosts[|boosts| - 2]),
      if boosts == [] then None else Some(boosts[0].receivedAt),
      Latest(h.metadata, EnrichmentSeen(t), EnrichmentKey),
      Latest(h.security, EnrichmentSeen(t), EnrichmentKey),
      Latest(h.context, ContextSeen(t), ContextKey))
  }

  function LatestIn(h: History, t: int, family: Family): Option<Selective> {
    Latest(Deep(h, t), InFamily(family), SelectiveKey)
  }

  function EventsIn(h: History, t: int, family: Family): seq<Selective> {
    SortByKey(Filter(Deep(h, t), InFamily(family)), SelectiveKey)
  }

  function SelectiveOf(h: History, t: int): SelectiveState {
    SelectiveState(
      LatestIn(h, t, HolderSnapshots), LatestIn(h, t, TraderDistributionSnapshots),
      LatestIn(h, t, CreatorHistorySnapshots), LatestIn(h, t, SecurityFeatureSnapshots),
      EventsIn(h, t, LiquidityEventEvidence), EventsIn(h, t, WalletRelationshipEdges),
      EventsIn(h, t, WalletClusterSnapshots), EventsIn(h, t, FundingRelationshipEvidence))
  }

  function TimeOf<T>(fact: Option<T>, time: T -> int): seq<int> {
    if fact.Some? then [time(fact.value)] else []
  }

  function DecisionTimes(d: DecisionState): seq<int> {
    TimeOf(d.lifecycle, LifecycleTime) + TimeOf(d.candidate, CandidateTime) + TimeOf(d.candidateTier, TierTime)
  }

  function MarketTimes(m: MarketState): seq<int> {
    Times(m.observationHistory, ObservationTime) + TimeOf(m.pairFact, PairFactTime)
  }

  function EnrichmentTimes(e: EnrichmentState): seq<int> {
    TimeOf(e.boost, EnrichmentTime) + TimeOf(e.metadata, EnrichmentTime) + TimeOf(e.security, EnrichmentTime)
    + TimeOf(e.context, ContextTime)
  }

  /** The receipt or decision times of the facts used. */
  function KnownTimes(h: History, t: int): seq<int> {
    Times(Discoveries(h, t), DiscoveryTime)
    + MarketTimes(MarketOf(h, t))
    + DecisionTimes(Decisions(h, t))
    + EnrichmentTimes(EnrichmentOf(h, t))
    + Times(Deep(h, t), SelectiveTime)
  }

  function StateOf(h: History, t: int): TokenState {
    var d, m, e := Decisions(h, t), MarketOf(h, t), EnrichmentOf(h, t);
    TokenState(
      h.identity, t,
      Discoveries(h, t) != [] || Observations(h, t) != [] || d.lifecycle.Some? || d.candidate.Some?
          || d.candidateTier.Some?,
      d, m, e, SelectiveOf(h, t), MaxTime(KnownTimes(h, t)))
  }

  function GetTokenStateAsOf(h: History, t: int, allowInvalidEpoch: bool): Result<TokenState, ResearchError> {
    if !h.epochDataValid && !allowInvalidEpoch then Failure(InvalidEpoch)
    else if !FactsValid(h) then Failure(InvalidFacts)
    else Success(StateOf(h, t))
  }

  // ---------------------------------------------------------------- no future information

  /** The histories describe one token and hold the same facts visible at t, in any order and
      with any other facts. */
  predicate AgreeAt(a: History, b: History, t: int) {
    && a.identity == b.identity && a.epochDataValid == b.epochDataValid
    && SameVisible(a.discoveries, b.discoveries, DiscoverySeen(t))
    && SameVisible(a.observations, b.observations, ObservationSeen(t))
    && SameVisible(a.lifecycle, b.lifecycle, LifecycleSeen(t))
    && SameVisible(a.coverage, b.coverage, CoverageSeen(t))
    && SameVisible(a.candidates, b.candidates, CandidateSeen(t))
    && SameVisible(a.candidateTiers, b.candidateTiers, TierSeen(t))
    && SameVisible(a.pairFacts, b.pairFacts, PairFactSeen(t))
    && SameVisible(a.boosts, b.boosts, EnrichmentSeen(t))
    && SameVisible(a.metadata, b.metadata, EnrichmentSeen(t))
    && SameVisible(a.security, b.security, EnrichmentSeen(t))
    && SameVisible(a.selective, b.selective, SelectiveSeen(t))
    && SameVisible(a.context, b.context, ContextSeen(t))
  }

  /** Visible facts of a family have distinct ids, or are the same fact. */
  predicate IdsUnique(h: History, t: int) {
    && Identified(Filter(h.discoveries, DiscoverySeen(t)), DiscoveryKey)
    && Identified(Filter(h.observations, ObservationSeen(t)), ObservationKey)
    && Identified(Filter(h.lifecycle, LifecycleSeen(t)), LifecycleKey)
    && Identified(Filter(h.coverage, CoverageSeen(t)), CoverageKey)
    && Identified(Filter(h.candidates, CandidateSeen(t)), CandidateKey)
    && Identified(Filter(h.candidateTiers, TierSeen(t)), TierKey)
    && Identified(Filter(h.pairFacts, PairFactSeen(t)), PairFactKey)
    && Identified(Filter(h.boosts, EnrichmentSeen(t)), EnrichmentKey)
    && Identified(Filter(h.metadata, EnrichmentSeen(t)), EnrichmentKey)
    && Identified(Filter(h.security, EnrichmentSeen(t)), EnrichmentKey)
    && Identified(Deep(h, t), SelectiveKey)
    && Identified(Filter(h.context, ContextSeen(t)), ContextKey)
  }

  lemma SameDecisions(a: History, b: History, t: int)
    requires AgreeAt(a, b, t) && IdsUnique(a, t)
    ensures Decisions(a, t) == Decisions(b, t)
  {
    SameLatest(a.lifecycle, b.lifecycle, LifecycleSeen(t), LifecycleKey);
    SameLatest(a.coverage, b.coverage, CoverageSeen(t), CoverageKey);
    SameLatest(a.candidates, b.candidates, CandidateSeen(t), CandidateKey);
    SameLatest(a.candidateTiers, b.candidateTiers, TierSeen(t), TierKey);
    var x, y := Filter(a.lifecycle, LifecycleSeen(t)), Filter(b.lifecycle, LifecycleSeen(t));
    SameFiltered(x, y, IsNew);
    SameMinTime(Filter(x, IsNew), Filter(y, IsNew));
  }

  lemma {:induction false} MinTimeIsLeast(times: seq<int>)
    ensures match MinTime(times)
            case None => times == []
            case Some(m) => m in times && forall i :: 0 <= i < |times| ==> m <= times[i]
  {
    if times != [] {
      MinTimeIsLeast(times[..|times| - 1]);
    }
  }

  predicate Among(x: seq<int>, y: seq<int>) {
    forall i :: 0 <= i < |x| ==> x[i] in y
  }

  lemma MinTimeOfMore(x: seq<int>, y: seq<int>)
    requires x != [] && Among(x, y)
    ensures y != [] && MinTime(y).value <= MinTime(x).value
  {
    MinTimeIsLeast(x);
    MinTimeIsLeast(y);
    var i :| 0 <= i < |x| && x[i] == MinTime(x).value;
    assert x[i] in y;
    var j :| 0 <= j < |y| && y[j] == x[i];
  }

  lemma SameMinTime(a: seq<Lifecycle>, b: seq<Lifecycle>)
    requires multiset(a) == multiset(b)
    ensures MinTime(Times(a, LifecycleTime)) == MinTime(Times(b, LifecycleTime))
  {
    SameMembers(a, b);
    TimesWithin(a, b, LifecycleTime);
    TimesWithin(b, a, LifecycleTime);
    SameTimesSameMin(Times(a, LifecycleTime), Times(b, LifecycleTime));
  }

  lemma SameTimesSameMin(x: seq<int>, y: seq<int>)
    requires Among(x, y) && Among(y, x)
    ensures MinTime(x) == MinTime(y)
  {
    MinTimeIsLeast(x);
    MinTimeIsLeast(y);
    if x != [] {
      MinTimeOfMore(x, y);
    }
    if y != [] {
      MinTimeOfMore(y, x);
    }
  }

  lemma TimesWithin<T>(a: seq<T>, b: seq<T>, time: T -> int)
    requires forall i :: 0 <= i < |a| ==> a[i] in b
    ensures Among(Times(a, time), Times(b, time))
  {
    forall i | 0 <= i < |a|
      ensures Times(a, time)[i] in Times(b, time)
    {
      var j :| 0 <= j < |b| && b[j] == a[i];
      assert Times(b, time)[j] == Times(a, time)[i];
    }
  }

  lemma SameMarket(a: History, b: History, t: int)
    requires AgreeAt(a, b, t) && IdsUnique(a, t)
    ensures Observations(a, t) == Observations(b, t) && MarketOf(a, t) == MarketOf(b, t)
  {
    SameSorted(Filter(a.observations, ObservationSeen(t)), Filter(b.observations, ObservationSeen(t)), ObservationKey);
    var pair := SelectPair(Observations(a, t));
    var x, y := Filter(a.pairFacts, PairFactSeen(t)), Filter(b.pairFacts, PairFactSeen(t));
    SameFiltered(x, y, PairFactOf(pair));
    IdentifiedWithin(x, PairFactOf(pair), PairFactKey);
    SameLatest(x, y, PairFactOf(pair), PairFactKey);
  }

  lemma IdentifiedWithin<T>(items: seq<T>, keep: T -> bool, key: T -> Key)
    requires Identified(items, key)
    ensures Identified(Filter(items, keep), key)
  {
    var kept := Filter(items, keep);
    forall i, j | 0 <= i < |kept| && 0 <= j < |kept| && key(kept[i]) == key(kept[j])
      ensures kept[i] == kept[j]
    {
      FilterMembers(items, keep, kept[i]);
      FilterMembers(items, keep, kept[j]);
    }
  }

  lemma SameEnrichment(a: History, b: History, t: int)
    requires AgreeAt(a, b, t) && IdsUnique(a, t)
    ensures EnrichmentOf(a, t) == EnrichmentOf(b, t)
  {
    SameSorted(Filter(a.boosts, EnrichmentSeen(t)), Filter(b.boosts, EnrichmentSeen(t)), EnrichmentKey);
    SameLatest(a.metadata, b.metadata, EnrichmentSeen(t), EnrichmentKey);
    SameLatest(a.security, b.security, EnrichmentSeen(t), EnrichmentKey);
    SameLatest(a.context, b.context, ContextSeen(t), ContextKey);
  }

  lemma SameSelective(a: History, b: History, t: int)
    requires AgreeAt(a, b, t) && IdsUnique(a, t)
    ensures SelectiveOf(a, t) == SelectiveOf(b, t)
  {
    forall family: Family
      ensures LatestIn(a, t, family) == LatestIn(b, t, family) && EventsIn(a, t, family) == EventsIn(b, t, family)
    {
      SameInFamily(Deep(a, t), Deep(b, t), family);
    }
  }

  lemma SameInFamily(a: seq<Selective>, b: seq<Selective>, family: Family)
    requires multiset(a) == multiset(b) && Identified(a, SelectiveKey)
    ensures Latest(a, InFamily(family), SelectiveKey) == Latest(b, InFamily(family), SelectiveKey)
    ensures SortByKey(Filter(a, InFamily(family)), SelectiveKey) == SortByKey(Filter(b, InFamily(family)), SelectiveKey)
  {
    SameFiltered(a, b, InFamily(family));
    IdentifiedWithin(a, InFamily(family), SelectiveKey);
    SameLatest(a, b, InFamily(family), SelectiveKey);
    SameSorted(Filter(a, InFamily(family)), Filter(b, InFamily(family)), SelectiveKey);
  }

  lemma MaxTimeOfMore(x: seq<int>, y: seq<int>)
    requires x != [] && Among(x, y)
    ensures y != [] && MaxTime(x).value <= MaxTime(y).value
  {
    MaxTimeIsGreatest(x);
    MaxTimeIsGreatest(y);
    var i :| 0 <= i < |x| && x[i] == MaxTime(x).value;
    assert x[i] in y;
    var j :| 0 <= j < |y| && y[j] == x[i];
  }

  lemma AmongConcat(base: seq<int>, x: seq<int>, y: seq<int>)
    requires Among(x, y)
    ensures Among(base + x, base + y)
  {
    forall i | 0 <= i < |base + x|
      ensures (base + x)[i] in base + y
    {
      if i < |base| {
        assert (base + y)[i] == base[i];
      } else {
        assert (base + x)[i] == x[i - |base|];
        var j :| 0 <= j < |y| && y[j] == x[i - |base|];
        assert (base + y)[|base| + j] == y[j];
      }
    }
  }

  /** A maximum does not depend on the order of the times. */
  lemma SameMaxTime(base: seq<int>, x: seq<int>, y: seq<int>)
    requires Among(x, y) && Among(y, x)
    ensures MaxTime(base + x) == MaxTime(base + y)
  {
    AmongConcat(base, x, y);
    AmongConcat(base, y, x);
    MaxTimeIsGreatest(base + x);
    MaxTimeIsGreatest(base + y);
    if base + x != [] {
      MaxTimeOfMore(base + x, base + y);
    }
    if base + y != [] {
      MaxTimeOfMore(base + y, base + x);
    }
  }

  lemma SameWatermark(a: History, b: History, t: int)
    requires AgreeAt(a, b, t)
    requires Discoveries(a, t) == Discoveries(b, t) && MarketOf(a, t) == MarketOf(b, t)
    requires Decisions(a, t) == Decisions(b, t) && EnrichmentOf(a, t) == EnrichmentOf(b, t)
    ensures MaxTime(KnownTimes(a, t)) == MaxTime(KnownTimes(b, t))
  {
    SameMembers(Deep(a, t), Deep(b, t));
    TimesWithin(Deep(a, t), Deep(b, t), SelectiveTime);
    TimesWithin(Deep(b, t), Deep(a, t), SelectiveTime);
    SameMaxTime(Times(Discoveries(a, t), DiscoveryTime) + MarketTimes(MarketOf(a, t))
                + DecisionTimes(Decisions(a, t)) + EnrichmentTimes(EnrichmentOf(a, t)),
                Times(Deep(a, t), SelectiveTime), Times(Deep(b, t), SelectiveTime));
  }

  lemma SameDiscoveries(a: History, b: History, t: int)
    requires AgreeAt(a, b, t) && IdsUnique(a, t)
    ensures Discoveries(a, t) == Discoveries(b, t)
  {
    SameSorted(Filter(a.discoveries, DiscoverySeen(t)), Filter(b.discoveries, DiscoverySeen(t)), DiscoveryKey);
  }

  /** The state is made of its parts. */
  lemma SameParts(a: History, b: History, t: int)
    requires a.identity == b.identity
    requires Discoveries(a, t) == Discoveries(b, t) && Observations(a, t) == Observations(b, t)
    requires Decisions(a, t) == Decisions(b, t) && MarketOf(a, t) == MarketOf(b, t)
    requires EnrichmentOf(a, t) == EnrichmentOf(b, t) && SelectiveOf(a, t) == SelectiveOf(b, t)
    requires MaxTime(KnownTimes(a, t)) == MaxTime(KnownTimes(b, t))
    ensures StateOf(a, t) == StateOf(b, t)
  {
  }

  /** No future information: facts that are not visible at t, and the order of the tuples, do not
      change the reconstructed state. */
  lemma NoFutureInformation(a: History, b: History, t: int)
    requires AgreeAt(a, b, t) && IdsUnique(a, t)
    ensures StateOf(a, t) == StateOf(b, t)
  {
    SameDiscoveries(a, b, t);
    SameDecisions(a, b, t);
    SameMarket(a, b, t);
    SameEnrichment(a, b, t);
    SameSelective(a, b, t);
    SameWatermark(a, b, t);
    SameParts(a, b, t);
  }

  /** The answers are the same if and only if both histories pass validation or both fail it:
      validation is the one place where facts of the future are read. */
  lemma AnswersAgreeExactly(a: History, b: History, t: int, allowInvalidEpoch: bool)
    requires AgreeAt(a, b, t) && IdsUnique(a, t)
    requires a.epochDataValid || allowInvalidEpoch
    ensures GetTokenStateAsOf(a, t, allowInvalidEpoch) == GetTokenStateAsOf(b, t, allowInvalidEpoch)
            <==> (FactsValid(a) <==> FactsValid(b))
  {
    NoFutureInformation(a, b, t);
  }

  /** Such histories exist: one invalid future fact turns the answer into an error. */
  lemma FutureFactCanInvalidate(h: History, t: int)
    requires FactsValid(h)
    ensures var bad := Lifecycle(0, t + 1, t + 2, "NEW", 0);
      var after := h.(lifecycle := h.lifecycle + [bad]);
      AgreeAt(h, after, t) && !FactsValid(after)
  {
    var bad := Lifecycle(0, t + 1, t + 2, "NEW", 0);
    var after := h.(lifecycle := h.lifecycle + [bad]);
    assert after.lifecycle[|h.lifecycle|] == bad;
    FilterConcat(h.lifecycle, [bad], LifecycleSeen(t));
    assert Filter([bad], LifecycleSeen(t)) == [];
  }

  // ---------------------------------------------------------------- watermark and admission

  lemma {:induction false} MaxTimeIsGreatest(times: seq<int>)
    ensures match MaxTime(times)
            case None => times == []
            case Some(m) => m in times && forall i :: 0 <= i < |times| ==> times[i] <= m
  {
    if times != [] {
      MaxTimeIsGreatest(times[..|times| - 1]);
    }
  }

  predicate AllAtMost(times: seq<int>, t: int) {
    forall i :: 0 <= i < |times| ==> times[i] <= t
  }

  lemma SortedMembers<T(!new)>(items: seq<T>, key: T -> Key, x: T)
    ensures x in SortByKey(items, key) <==> x in items
  {
    SortByKeySorts(items, key);
    SameMembers(SortByKey(items, key), items);
  }

  /** Times of kept facts are bounded when keeping a fact bounds its time. */
  lemma KeptTimes<T(!new)>(items: seq<T>, keep: T -> bool, key: T -> Key, time: T -> int, t: int)
    requires forall x: T :: keep(x) ==> time(x) <= t
    ensures AllAtMost(Times(SortByKey(Filter(items, keep), key), time), t)
  {
    var sorted := SortByKey(Filter(items, keep), key);
    forall i | 0 <= i < |sorted|
      ensures time(sorted[i]) <= t
    {
      SortedMembers(Filter(items, keep), key, sorted[i]);
      FilterMembers(items, keep, sorted[i]);
    }
  }

  lemma LatestTime<T>(items: seq<T>, keep: T -> bool, key: T -> Key, time: T -> int, t: int)
    requires forall i :: 0 <= i < |items| && keep(items[i]) ==> time(items[i]) <= t
    ensures AllAtMost(TimeOf(Latest(items, keep, key), time), t)
  {
    LatestIsVisible(items, keep, key);
  }

  lemma MarketTimesArePast(h: History, t: int)
    ensures AllAtMost(MarketTimes(MarketOf(h, t)), t)
  {
    var m := MarketOf(h, t);
    KeptTimes(h.observations, ObservationSeen(t), ObservationKey, ObservationTime, t);
    forall i | 0 <= i < |m.observationHistory|
      ensures m.observationHistory[i].receivedAt <= t
    {
      FilterMembers(Observations(h, t), OfPair(m.selectedPair), m.observationHistory[i]);
      var j :| 0 <= j < |Observations(h, t)| && Observations(h, t)[j] == m.observationHistory[i];
      assert Times(Observations(h, t), ObservationTime)[j] <= t;
    }
    var seen := Filter(h.pairFacts, PairFactSeen(t));
    forall i | 0 <= i < |seen|
      ensures seen[i].receivedAt <= t
    {
      FilterMembers(h.pairFacts, PairFactSeen(t), seen[i]);
    }
    LatestTime(seen, PairFactOf(m.selectedPair), PairFactKey, PairFactTime, t);
  }

  lemma DecisionTimesArePast(h: History, t: int)
    ensures AllAtMost(DecisionTimes(Decisions(h, t)), t)
  {
    LatestTime(h.lifecycle, LifecycleSeen(t), LifecycleKey, LifecycleTime, t);
    LatestTime(h.candidates, CandidateSeen(t), CandidateKey, CandidateTime, t);
    LatestTime(h.candidateTiers, TierSeen(t), TierKey, TierTime, t);
  }

  lemma BoostTimeIsPast(h: History, t: int)
    ensures AllAtMost(TimeOf(EnrichmentOf(h, t).boost, EnrichmentTime), t)
  {
    KeptTimes(h.boosts, EnrichmentSeen(t), EnrichmentKey, EnrichmentTime, t);
    var boosts := Boosts(h, t);
    assert boosts != [] ==> Times(boosts, EnrichmentTime)[|boosts| - 1] <= t;
  }

  lemma EnrichmentTimesArePast(h: History, t: int)
    ensures AllAtMost(EnrichmentTimes(EnrichmentOf(h, t)), t)
  {
    BoostTimeIsPast(h, t);
    LatestTime(h.metadata, EnrichmentSeen(t), EnrichmentKey, EnrichmentTime, t);
    LatestTime(h.security, EnrichmentSeen(t), EnrichmentKey, EnrichmentTime, t);
    LatestTime(h.context, ContextSeen(t), ContextKey, ContextTime, t);
  }

  lemma SelectiveTimesArePast(h: History, t: int)
    ensures AllAtMost(Times(Deep(h, t), SelectiveTime), t)
  {
    forall i | 0 <= i < |Deep(h, t)|
      ensures Deep(h, t)[i].receivedAt <= t
    {
      FilterMembers(h.selective, SelectiveSeen(t), Deep(h, t)[i]);
    }
  }

  lemma KnownTimesArePast(h: History, t: int)
    ensures AllAtMost(KnownTimes(h, t), t)
  {
    KeptTimes(h.discoveries, DiscoverySeen(t), DiscoveryKey, DiscoveryTime, t);
    MarketTimesArePast(h, t);
    DecisionTimesArePast(h, t);
    EnrichmentTimesArePast(h, t);
    SelectiveTimesArePast(h, t);
    var discovered := Times(Discoveries(h, t), DiscoveryTime);
    var market, decided := MarketTimes(MarketOf(h, t)), DecisionTimes(Decisions(h, t));
    BothAtMost(discovered, market, t);
    BothAtMost(discovered + market, decided, t);
    BothAtMost(discovered + market + decided, EnrichmentTimes(EnrichmentOf(h, t)), t);
    BothAtMost(discovered + market + decided + EnrichmentTimes(EnrichmentOf(h, t)), Times(Deep(h, t),
        SelectiveTime), t);
  }

  lemma BothAtMost(a: seq<int>, b: seq<int>, t: int)
    requires AllAtMost(a, t) && AllAtMost(b, t)
    ensures AllAtMost(a + b, t)
  {
  }

  lemma AdmissionIsPast(h: History, t: int)
    ensures Decisions(h, t).admissionAt.Some? ==> Decisions(h, t).admissionAt.value <= t
  {
    var admissions := Filter(Filter(h.lifecycle, LifecycleSeen(t)), IsNew);
    MinTimeIsLeast(Times(admissions, LifecycleTime));
    if admissions != [] {
      FilterMembers(Filter(h.lifecycle, LifecycleSeen(t)), IsNew, admissions[0]);
      FilterMembers(h.lifecycle, LifecycleSeen(t), admissions[0]);
      assert Times(admissions, LifecycleTime)[0] <= t;
    }
  }

  /** Everything used was received or decided by the decision time. */
  lemma WatermarkIsPast(h: History, t: int)
    ensures StateOf(h, t).watermark.Some? ==> StateOf(h, t).watermark.value <= t
    ensures StateOf(h, t).decisions.admissionAt.Some? ==> StateOf(h, t).decisions.admissionAt.value <= t
  {
    KnownTimesArePast(h, t);
    MaxTimeIsGreatest(KnownTimes(h, t));
    AdmissionIsPast(h, t);
  }
}
