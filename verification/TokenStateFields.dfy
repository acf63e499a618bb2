/** Which fact each part of a reconstructed state holds, in the times, ids and lists of the history. */
module TokenStateFields {
  import opened Collections
  import opened Wrappers
  import opened AsOfQueries
  import opened TokenStateAsOf

  // ---------------------------------------------------------------- what a field and a list may hold

  /** Order by time, then by id. */
  predicate UpTo(time: int, id: nat, latest: int, latestId: nat) {
    time < latest || (time == latest && id <= latestId)
  }

  /** The field holds a visible fact of the list that no visible fact exceeds, or nothing is visible. */
  ghost predicate Picks<T>(field: Option<T>, items: seq<T>, visible: T -> bool, upTo: (T, T) -> bool) {
    match field
    case None => forall x <- items :: !visible(x)
    case Some(f) => f in items && visible(f) && forall x <- items :: visible(x) ==> upTo(x, f)
  }

  /** The list holds the visible facts, each as often as in the history, in order. */
  ghost predicate Lists<T(!new)>(list: seq<T>, items: seq<T>, visible: T -> bool, upTo: (T, T) -> bool) {
    && (forall x :: multiset(list)[x] == if visible(x) then multiset(items)[x] else 0)
    && (forall i, j :: 0 <= i < j < |list| ==> upTo(list[i], list[j]))
  }

  lemma LatestPicks<T>(items: seq<T>, seen: T -> bool, key: T -> Key, visible: T -> bool, upTo: (T, T) -> bool)
    requires forall x <- items :: seen(x) <==> visible(x)
    requires forall x, y :: x in items && y in items && KeyLe(key(x), key(y)) ==> upTo(x, y)
    ensures Picks(Latest(items, seen, key), items, visible, upTo)
  {
    LatestIsVisible(items, seen, key);
  }

  lemma SortedLists<T(!new)>(items: seq<T>, keep: T -> bool, key: T -> Key, visible: T -> bool, upTo: (T, T) -> bool)
    requires forall x :: keep(x) <==> visible(x)
    requires forall x, y :: KeyLe(key(x), key(y)) ==> upTo(x, y)
    ensures Lists(SortByKey(Filter(items, keep), key), items, visible, upTo)
  {
    var list := SortByKey(Filter(items, keep), key);
    SortByKeySorts(Filter(items, keep), key);
    forall x
      ensures multiset(list)[x] == if visible(x) then multiset(items)[x] else 0
    {
      FilterCounts(items, keep, x);
    }
  }

  /** Picking among the kept facts is picking among the facts that are both kept and visible. */
  lemma PicksWithin<T>(field: Option<T>, items: seq<T>, keep: T -> bool, visible: T -> bool, both: T -> bool,
                       upTo: (T, T) -> bool)
    requires forall x <- items :: both(x) <==> keep(x) && visible(x)
    requires Picks(field, Filter(items, keep), visible, upTo)
    ensures Picks(field, items, both, upTo)
  {
    forall x <- items
      ensures x in Filter(items, keep) <==> keep(x)
    {
      FilterMembers(items, keep, x);
    }
    if field.Some? {
      FilterMembers(items, keep, field.value);
    }
  }

  lemma ListsWithin<T(!new)>(list: seq<T>, items: seq<T>, keep: T -> bool, visible: T -> bool, both: T -> bool,
                             upTo: (T, T) -> bool)
    requires forall x :: both(x) <==> keep(x) && visible(x)
    requires Lists(list, Filter(items, keep), visible, upTo)
    ensures Lists(list, items, both, upTo)
  {
    forall x
      ensures multiset(list)[x] == if both(x) then multiset(items)[x] else 0
    {
      FilterCounts(items, keep, x);
    }
  }

  // ---------------------------------------------------------------- decisions

  lemma LifecycleField(h: History, t: int)
    ensures Picks(StateOf(h, t).decisions.lifecycle, h.lifecycle,
                  (f: Lifecycle) => f.decidedAt <= t && f.inputWatermark <= f.decidedAt,
                  (a: Lifecycle, b: Lifecycle) => UpTo(a.decidedAt, a.id, b.decidedAt, b.id))
  {
    LatestPicks(h.lifecycle, LifecycleSeen(t), LifecycleKey,
                (f: Lifecycle) => f.decidedAt <= t && f.inputWatermark <= f.decidedAt,
                (a: Lifecycle, b: Lifecycle) => UpTo(a.decidedAt, a.id, b.decidedAt, b.id));
  }

  lemma CoverageField(h: History, t: int)
    ensures Picks(StateOf(h, t).decisions.coverage, h.coverage,
                  (f: Coverage) => f.decidedAt <= t && f.effectiveAt <= t,
                  (a: Coverage, b: Coverage) =>
                    a.effectiveAt < b.effectiveAt
                    || (a.effectiveAt == b.effectiveAt && UpTo(a.decidedAt, a.id, b.decidedAt, b.id)))
  {
    LatestPicks(h.coverage, CoverageSeen(t), CoverageKey,
                (f: Coverage) => f.decidedAt <= t && f.effectiveAt <= t,
                (a: Coverage, b: Coverage) =>
                  a.effectiveAt < b.effectiveAt
                  || (a.effectiveAt == b.effectiveAt && UpTo(a.decidedAt, a.id, b.decidedAt, b.id)));
  }

  lemma CandidateField(h: History, t: int)
    ensures Picks(StateOf(h, t).decisions.candidate, h.candidates,
                  (f: Candidate) => f.candidateAt <= t && f.inputWatermark <= t,
                  (a: Candidate, b: Candidate) => UpTo(a.candidateAt, a.id, b.candidateAt, b.id))
  {
    LatestPicks(h.candidates, CandidateSeen(t), CandidateKey,
                (f: Candidate) => f.candidateAt <= t && f.inputWatermark <= t,
                (a: Candidate, b: Candidate) => UpTo(a.candidateAt, a.id, b.candidateAt, b.id));
  }

  lemma CandidateTierField(h: History, t: int)
    ensures Picks(StateOf(h, t).decisions.candidateTier, h.candidateTiers,
                  (f: CandidateTier) => f.decidedAt <= t && f.inputWatermark <= t,
                  (a: CandidateTier, b: CandidateTier) => UpTo(a.decidedAt, a.id, b.decidedAt, b.id))
  {
    LatestPicks(h.candidateTiers, TierSeen(t), TierKey,
                (f: CandidateTier) => f.decidedAt <= t && f.inputWatermark <= t,
                (a: CandidateTier, b: CandidateTier) => UpTo(a.decidedAt, a.id, b.decidedAt, b.id));
  }

  /** A visible decision that admits the token. */
  predicate Admits(h: History, t: int, f: Lifecycle) {
    f in h.lifecycle && f.newState == "NEW" && f.decidedAt <= t && f.inputWatermark <= f.decidedAt
  }

  /** The admission is the first visible decision to state NEW. */
  lemma AdmissionField(h: History, t: int)
    ensures match StateOf(h, t).decisions.admissionAt
            case None => forall f :: !Admits(h, t, f)
            case Some(at) => && (exists f :: Admits(h, t, f) && f.decidedAt == at)
                             && (forall f :: Admits(h, t, f) ==> at <= f.decidedAt)
  {
    var admissions := Filter(Filter(h.lifecycle, LifecycleSeen(t)), IsNew);
    var times := Times(admissions, LifecycleTime);
    MinTimeIsLeast(times);
    forall f
      ensures Admits(h, t, f) <==> f in admissions
    {
      FilterMembers(Filter(h.lifecycle, LifecycleSeen(t)), IsNew, f);
      FilterMembers(h.lifecycle, LifecycleSeen(t), f);
    }
    forall f | Admits(h, t, f)
      ensures admissions != [] && MinTime(times).value <= f.decidedAt
    {
      var i :| 0 <= i < |admissions| && admissions[i] == f;
      assert times[i] == f.decidedAt;
    }
    if admissions != [] {
      var i :| 0 <= i < |times| && times[i] == MinTime(times).value;
      assert Admits(h, t, admissions[i]);
    }
  }

  // ---------------------------------------------------------------- enrichment

  lemma MetadataField(h: History, t: int)
    ensures Picks(StateOf(h, t).enrichment.metadata, h.metadata,
                  (f: Enrichment) => f.receivedAt <= t,
                  (a: Enrichment, b: Enrichment) => UpTo(a.receivedAt, a.id, b.receivedAt, b.id))
  {
    LatestPicks(h.metadata, EnrichmentSeen(t), EnrichmentKey, (f: Enrichment) => f.receivedAt <= t,
                (a: Enrichment, b: Enrichment) => UpTo(a.receivedAt, a.id, b.receivedAt, b.id));
  }

  lemma SecurityField(h: History, t: int)
    ensures Picks(StateOf(h, t).enrichment.security, h.security,
                  (f: Enrichment) => f.receivedAt <= t,
                  (a: Enrichment, b: Enrichment) => UpTo(a.receivedAt, a.id, b.receivedAt, b.id))
  {
    LatestPicks(h.security, EnrichmentSeen(t), EnrichmentKey, (f: Enrichment) => f.receivedAt <= t,
                (a: Enrichment, b: Enrichment) => UpTo(a.receivedAt, a.id, b.receivedAt, b.id));
  }

  lemma ContextField(h: History, t: int)
    ensures Picks(StateOf(h, t).enrichment.context, h.context,
                  (f: Context) => f.receivedAt <= t && f.bucketEnd <= t,
                  (a: Context, b: Context) =>
                    a.receivedAt < b.receivedAt
                    || (a.receivedAt == b.receivedAt && UpTo(a.bucketEnd, a.id, b.bucketEnd, b.id)))
  {
    LatestPicks(h.context, ContextSeen(t), ContextKey,
                (f: Context) => f.receivedAt <= t && f.bucketEnd <= t,
                (a: Context, b: Context) =>
                  a.receivedAt < b.receivedAt
                  || (a.receivedAt == b.receivedAt && UpTo(a.bucketEnd, a.id, b.bucketEnd, b.id)));
  }

  /** The last boost, the one before it and the first receipt. */
  predicate TellsOf(e: EnrichmentState, boosts: seq<Enrichment>) {
    && e.boost == (if boosts == [] then None else Some(boosts[|boosts| - 1]))
    && e.previousBoost == (if |boosts| < 2 then None else Some(boosts[|boosts| - 2]))
    && e.firstBoostReceivedAt == (if boosts == [] then None else Some(boosts[0].receivedAt))
  }

  lemma TellsOfBoosts(h: History, t: int)
    ensures StateOf(h, t).enrichment == EnrichmentOf(h, t) && TellsOf(EnrichmentOf(h, t), Boosts(h, t))
  {
  }

  lemma BoostsAreVisible(h: History, t: int)
    ensures Lists(Boosts(h, t), h.boosts, (f: Enrichment) => f.receivedAt <= t,
                  (a: Enrichment, b: Enrichment) => UpTo(a.receivedAt, a.id, b.receivedAt, b.id))
  {
    SortedLists(h.boosts, EnrichmentSeen(t), EnrichmentKey, (f: Enrichment) => f.receivedAt <= t,
                (a: Enrichment, b: Enrichment) => UpTo(a.receivedAt, a.id, b.receivedAt, b.id));
  }

  /** The boost fields are those of the visible boosts in order. */
  lemma BoostFields(h: History, t: int) returns (boosts: seq<Enrichment>)
    ensures Lists(boosts, h.boosts, (f: Enrichment) => f.receivedAt <= t,
                  (a: Enrichment, b: Enrichment) => UpTo(a.receivedAt, a.id, b.receivedAt, b.id))
    ensures TellsOf(StateOf(h, t).enrichment, boosts)
  {
    boosts := Boosts(h, t);
    BoostsAreVisible(h, t);
    TellsOfBoosts(h, t);
  }

  // ---------------------------------------------------------------- selective families

  /** A fact of the family that was available at the time, not reconstructed later. */
  predicate Available(f: Selective, family: Family, t: int) {
    f.family == family && f.acquisitionMode == HistoricallyAvailable && f.receivedAt <= t
  }

  lemma LatestInFamily(h: History, t: int, family: Family)
    ensures Picks(LatestIn(h, t, family), h.selective, (f: Selective) => Available(f, family, t),
                  (a: Selective, b: Selective) => UpTo(a.receivedAt, a.id, b.receivedAt, b.id))
  {
    var upTo := (a: Selective, b: Selective) => UpTo(a.receivedAt, a.id, b.receivedAt, b.id);
    LatestPicks(Deep(h, t), InFamily(family), SelectiveKey, InFamily(family), upTo);
    PicksWithin(LatestIn(h, t, family), h.selective, SelectiveSeen(t), InFamily(family),
                (f: Selective) => Available(f, family, t), upTo);
  }

  lemma EventsInFamily(h: History, t: int, family: Family)
    ensures Lists(EventsIn(h, t, family), h.selective, (f: Selective) => Available(f, family, t),
                  (a: Selective, b: Selective) => UpTo(a.receivedAt, a.id, b.receivedAt, b.id))
  {
    var upTo := (a: Selective, b: Selective) => UpTo(a.receivedAt, a.id, b.receivedAt, b.id);
    SortedLists(Deep(h, t), InFamily(family), SelectiveKey, InFamily(family), upTo);
    ListsWithin(EventsIn(h, t, family), h.selective, SelectiveSeen(t), InFamily(family),
                (f: Selective) => Available(f, family, t), upTo);
  }

  /** The four snapshots are the latest available facts of their own families. */
  lemma SnapshotFields(h: History, t: int)
    ensures var s := StateOf(h, t).selective;
      var upTo := (a: Selective, b: Selective) => UpTo(a.receivedAt, a.id, b.receivedAt, b.id);
      && Picks(s.holder, h.selective, (f: Selective) => Available(f, HolderSnapshots, t), upTo)
      && Picks(s.trader, h.selective, (f: Selective) => Available(f, TraderDistributionSnapshots, t), upTo)
      && Picks(s.creator, h.selective, (f: Selective) => Available(f, CreatorHistorySnapshots, t), upTo)
      && Picks(s.securityFeatures, h.selective, (f: Selective) => Available(f, SecurityFeatureSnapshots, t), upTo)
  {
    LatestInFamily(h, t, HolderSnapshots);
    LatestInFamily(h, t, TraderDistributionSnapshots);
    LatestInFamily(h, t, CreatorHistorySnapshots);
    LatestInFamily(h, t, SecurityFeatureSnapshots);
  }

  /** The four event lists are the available facts of their own families in order. */
  lemma EventFields(h: History, t: int)
    ensures var s := StateOf(h, t).selective;
      var upTo := (a: Selective, b: Selective) => UpTo(a.receivedAt, a.id, b.receivedAt, b.id);
      && Lists(s.liquidityEvents, h.selective, (f: Selective) => Available(f, LiquidityEventEvidence, t), upTo)
      && Lists(s.walletRelationships, h.selective, (f: Selective) => Available(f, WalletRelationshipEdges, t), upTo)
      && Lists(s.walletClusters, h.selective, (f: Selective) => Available(f, WalletClusterSnapshots, t), upTo)
      && Lists(s.fundingRelationships, h.selective,
               (f: Selective) => Available(f, FundingRelationshipEvidence, t), upTo)
  {
    EventsInFamily(h, t, LiquidityEventEvidence);
    EventsInFamily(h, t, WalletRelationshipEdges);
    EventsInFamily(h, t, WalletClusterSnapshots);
    EventsInFamily(h, t, FundingRelationshipEvidence);
  }

  // ---------------------------------------------------------------- market

  lemma {:induction false} FilterKeepsOrder<T>(items: seq<T>, keep: T -> bool, upTo: (T, T) -> bool)
    requires forall i, j :: 0 <= i < j < |items| ==> upTo(items[i], items[j])
    ensures forall i, j :: 0 <= i < j < |Filter(items, keep)| ==> upTo(Filter(items, keep)[i], Filter(items, keep)[j])
  {
    if items != [] {
      var n := |items| - 1;
      var before := Filter(items[..n], keep);
      FilterKeepsOrder(items[..n], keep, upTo);
      forall i | 0 <= i < |before| && keep(items[n])
        ensures upTo(before[i], items[n])
      {
        FilterMembers(items[..n], keep, before[i]);
        var j :| 0 <= j < n && items[..n][j] == before[i];
        assert items[j] == before[i];
      }
    }
  }

  /** The visible observations in order of receipt. */
  lemma ObservationsAreVisible(h: History, t: int)
    ensures Lists(Observations(h, t), h.observations, (o: Observation) => o.receivedAt <= t,
                  (a: Observation, b: Observation) => UpTo(a.receivedAt, a.id, b.receivedAt, b.id))
  {
    SortedLists(h.observations, ObservationSeen(t), ObservationKey, (o: Observation) => o.receivedAt <= t,
                (a: Observation, b: Observation) => UpTo(a.receivedAt, a.id, b.receivedAt, b.id));
  }

  /** The history is that of the selected pair, in order, and the current observation is its last. */
  lemma ObservationFields(h: History, t: int)
    ensures var m := StateOf(h, t).market;
      && Lists(m.observationHistory, h.observations,
               (o: Observation) => o.receivedAt <= t && m.selectedPair == Some(o.pairId),
               (a: Observation, b: Observation) => UpTo(a.receivedAt, a.id, b.receivedAt, b.id))
      && (m.currentObservation.Some? <==> m.observationHistory != [])
      && (m.currentObservation.Some? ==>
            m.currentObservation.value == m.observationHistory[|m.observationHistory| - 1])
  {
    var pair := StateOf(h, t).market.selectedPair;
    var upTo := (a: Observation, b: Observation) => UpTo(a.receivedAt, a.id, b.receivedAt, b.id);
    ObservationsAreVisible(h, t);
    FilterKeepsOrder(Observations(h, t), OfPair(pair), upTo);
    ListsFiltered(Observations(h, t), h.observations, OfPair(pair), (o: Observation) => o.receivedAt <= t,
                  (o: Observation) => o.receivedAt <= t && pair == Some(o.pairId), upTo);
  }

  lemma ListsFiltered<T(!new)>(list: seq<T>, items: seq<T>, keep: T -> bool, visible: T -> bool, both: T -> bool,
                               upTo: (T, T) -> bool)
    requires forall x :: both(x) <==> keep(x) && visible(x)
    requires Lists(list, items, visible, upTo)
    requires forall i, j :: 0 <= i < j < |Filter(list, keep)| ==> upTo(Filter(list, keep)[i], Filter(list, keep)[j])
    ensures Lists(Filter(list, keep), items, both, upTo)
  {
    forall x
      ensures multiset(Filter(list, keep))[x] == if both(x) then multiset(items)[x] else 0
    {
      FilterCounts(list, keep, x);
    }
  }

  lemma PairFactField(h: History, t: int)
    ensures var m := StateOf(h, t).market;
      Picks(m.pairFact, h.pairFacts, (f: PairFact) => f.receivedAt <= t && m.selectedPair == Some(f.pairId),
            (a: PairFact, b: PairFact) => UpTo(a.receivedAt, a.id, b.receivedAt, b.id))
  {
    var m := StateOf(h, t).market;
    var upTo := (a: PairFact, b: PairFact) => UpTo(a.receivedAt, a.id, b.receivedAt, b.id);
    LatestPicks(Filter(h.pairFacts, PairFactSeen(t)), PairFactOf(m.selectedPair), PairFactKey,
                PairFactOf(m.selectedPair), upTo);
    PicksWithin(m.pairFact, h.pairFacts, PairFactSeen(t), PairFactOf(m.selectedPair),
                (f: PairFact) => f.receivedAt <= t && m.selectedPair == Some(f.pairId), upTo);
  }

  /** A visible observation. */
  predicate Seen(h: History, t: int, o: Observation) { o in h.observations && o.receivedAt <= t }

  /** The last visible observation of its pair. */
  ghost predicate LastSeen(h: History, t: int, o: Observation) {
    && Seen(h, t, o)
    && forall x :: Seen(h, t, x) && x.pairId == o.pairId ==> UpTo(x.receivedAt, x.id, o.receivedAt, o.id)
  }

  /** a ranks below b: unknown liquidity, less liquidity, an earlier receipt or a smaller pair id. */
  predicate RanksBelow(a: Observation, b: Observation) {
    || (a.liquidityUsd.None? && b.liquidityUsd.Some?)
    || (a.liquidityUsd.Some? && b.liquidityUsd.Some? && a.liquidityUsd.value < b.liquidityUsd.value)
    || (a.liquidityUsd == b.liquidityUsd && a.receivedAt < b.receivedAt)
    || (a.liquidityUsd == b.liquidityUsd && a.receivedAt == b.receivedAt && a.pairId < b.pairId)
  }

  /** Observations with equal times and ids are the same. */
  predicate ObservationsIdentified(h: History) {
    forall a, b :: a in h.observations && b in h.observations && a.receivedAt == b.receivedAt && a.id == b.id ==> a == b
  }

  /** No pair is selected when nothing is visible; otherwise the last observation of the selected pair
      outranks that of every other pair. */
  lemma SelectedPairField(h: History, t: int)
    requires ObservationsIdentified(h)
    ensures match StateOf(h, t).market.selectedPair
            case None => forall o :: !Seen(h, t, o)
            case Some(p) => exists best :: LastSeen(h, t, best) && best.pairId == p
                                           && forall o :: LastSeen(h, t, o) && o.pairId != p ==> RanksBelow(o, best)
  {
    var observations := Observations(h, t);
    ObservationsAreSeen(h, t);
    if observations != [] {
      SelectedPairIsUniqueMaximum(observations);
      var latest := LatestOfPairs(observations);
      var p := SelectPair(observations).value;
      LatestIsLastSeen(h, t, p);
      forall o | LastSeen(h, t, o) && o.pairId != p
        ensures RanksBelow(o, latest[p])
      {
        LatestIsLastSeen(h, t, o.pairId);
        assert latest[o.pairId] == o;
      }
    }
  }

  lemma ObservationsAreSeen(h: History, t: int)
    ensures forall o :: o in Observations(h, t) <==> Seen(h, t, o)
  {
    forall o
      ensures o in Observations(h, t) <==> Seen(h, t, o)
    {
      SortedMembers(Filter(h.observations, ObservationSeen(t)), ObservationKey, o);
      FilterMembers(h.observations, ObservationSeen(t), o);
    }
  }

  lemma LatestIsLastSeen(h: History, t: int, p: nat)
    ensures var latest := LatestOfPairs(Observations(h, t));
      if p in latest then LastSeen(h, t, latest[p]) && latest[p].pairId == p
      else forall o :: Seen(h, t, o) ==> o.pairId != p
  {
    var observations := Observations(h, t);
    ObservationsAreSeen(h, t);
    ObservationsAreVisible(h, t);
    var i := LatestOfPairIsLast(observations, p);
    forall x | Seen(h, t, x) && x.pairId == p
      ensures p in LatestOfPairs(observations)
      ensures UpTo(x.receivedAt, x.id, observations[i].receivedAt, observations[i].id)
    {
      var j :| 0 <= j < |observations| && observations[j] == x;
    }
  }

  // ---------------------------------------------------------------- identity and watermark

  lemma IdentityField(h: History, t: int)
    ensures var s := StateOf(h, t);
      s.identityKnown <==>
        || (exists f :: f in h.discoveries && f.receivedAt <= t)
        || (exists o :: Seen(h, t, o))
        || s.decisions.lifecycle.Some? || s.decisions.candidate.Some? || s.decisions.candidateTier.Some?
  {
    ObservationsAreSeen(h, t);
    DiscoveriesAreSeen(h, t);
    if Observations(h, t) != [] {
      assert Seen(h, t, Observations(h, t)[0]);
    }
    if Discoveries(h, t) != [] {
      assert Discoveries(h, t)[0] in h.discoveries;
    }
  }

  lemma DiscoveriesAreSeen(h: History, t: int)
    ensures forall f :: f in Discoveries(h, t) <==> f in h.discoveries && f.receivedAt <= t
  {
    forall f
      ensures f in Discoveries(h, t) <==> f in h.discoveries && f.receivedAt <= t
    {
      SortedMembers(Filter(h.discoveries, DiscoverySeen(t)), DiscoveryKey, f);
      FilterMembers(h.discoveries, DiscoverySeen(t), f);
    }
  }

  /** The time of a market fact, a decision or an enrichment in the state. */
  predicate MarketAt(m: MarketState, time: int) {
    || (exists o <- m.observationHistory :: o.receivedAt == time)
    || (m.pairFact.Some? && m.pairFact.value.receivedAt == time)
  }

  predicate DecidedAt(d: DecisionState, time: int) {
    || (d.lifecycle.Some? && d.lifecycle.value.decidedAt == time)
    || (d.candidate.Some? && d.candidate.value.candidateAt == time)
    || (d.candidateTier.Some? && d.candidateTier.value.decidedAt == time)
  }

  predicate EnrichedAt(e: EnrichmentState, time: int) {
    || (e.boost.Some? && e.boost.value.receivedAt == time)
    || (e.metadata.Some? && e.metadata.value.receivedAt == time)
    || (e.security.Some? && e.security.value.receivedAt == time)
    || (e.context.Some? && e.context.value.receivedAt == time)
  }

  /** The time of a fact that the state was built from. */
  predicate UsedAt(h: History, t: int, time: int) {
    || (exists f <- h.discoveries :: f.receivedAt <= t && f.receivedAt == time)
    || MarketAt(StateOf(h, t).market, time)
    || DecidedAt(StateOf(h, t).decisions, time)
    || EnrichedAt(StateOf(h, t).enrichment, time)
    || (exists f <- h.selective :: f.acquisitionMode == HistoricallyAvailable && f.receivedAt <= t
                                   && f.receivedAt == time)
  }

  lemma WatermarkIsMax(h: History, t: int)
    ensures StateOf(h, t).watermark == MaxTime(KnownTimes(h, t))
  {
  }

  lemma UsedIsKnown(h: History, t: int)
    ensures forall time :: UsedAt(h, t, time) <==> time in KnownTimes(h, t)
  {
    forall time
      ensures UsedAt(h, t, time) <==> time in KnownTimes(h, t)
    {
      KnownTimesAreUsed(h, t, time);
    }
  }

  lemma GreatestOf(times: seq<int>)
    ensures match MaxTime(times)
            case None => forall time :: time !in times
            case Some(w) => w in times && forall time :: time in times ==> time <= w
  {
    MaxTimeIsGreatest(times);
  }

  /** The watermark is the greatest time of the facts that the state was built from. */
  lemma WatermarkField(h: History, t: int)
    ensures match StateOf(h, t).watermark
            case None => forall time :: !UsedAt(h, t, time)
            case Some(w) => UsedAt(h, t, w) && forall time :: UsedAt(h, t, time) ==> time <= w
  {
    WatermarkIsMax(h, t);
    GreatestOf(KnownTimes(h, t));
    UsedIsKnown(h, t);
  }

  lemma InTimes<T>(items: seq<T>, time: T -> int, at: int)
    ensures at in Times(items, time) <==> exists x :: x in items && time(x) == at
  {
    if x :| x in items && time(x) == at {
      var i :| 0 <= i < |items| && items[i] == x;
      assert Times(items, time)[i] == at;
    }
  }

  lemma InTimeOf<T>(fact: Option<T>, time: T -> int, at: int)
    ensures at in TimeOf(fact, time) <==> fact.Some? && time(fact.value) == at
  {
  }

  lemma MarketTimesAre(m: MarketState, time: int)
    ensures time in MarketTimes(m) <==> MarketAt(m, time)
  {
    InTimes(m.observationHistory, ObservationTime, time);
    InTimeOf(m.pairFact, PairFactTime, time);
  }

  lemma DecisionTimesAre(d: DecisionState, time: int)
    ensures time in DecisionTimes(d) <==> DecidedAt(d, time)
  {
    InTimeOf(d.lifecycle, LifecycleTime, time);
    InTimeOf(d.candidate, CandidateTime, time);
    InTimeOf(d.candidateTier, TierTime, time);
  }

  lemma EnrichmentTimesAre(e: EnrichmentState, time: int)
    ensures time in EnrichmentTimes(e) <==> EnrichedAt(e, time)
  {
    InTimeOf(e.boost, EnrichmentTime, time);
    InTimeOf(e.metadata, EnrichmentTime, time);
    InTimeOf(e.security, EnrichmentTime, time);
    InTimeOf(e.context, ContextTime, time);
  }

  lemma InFive(a: seq<int>, b: seq<int>, c: seq<int>, d: seq<int>, e: seq<int>, x: int)
    ensures x in a + b + c + d + e <==> x in a || x in b || x in c || x in d || x in e
  {
  }

  lemma KnownTimesAreUsed(h: History, t: int, time: int)
    ensures UsedAt(h, t, time) <==> time in KnownTimes(h, t)
  {
    DiscoveryTimes(h, t, time);
    MarketTimesAre(MarketOf(h, t), time);
    DecisionTimesAre(Decisions(h, t), time);
    EnrichmentTimesAre(EnrichmentOf(h, t), time);
    DeepTimes(h, t, time);
    InFive(Times(Discoveries(h, t), DiscoveryTime), MarketTimes(MarketOf(h, t)), DecisionTimes(Decisions(h, t)),
           EnrichmentTimes(EnrichmentOf(h, t)), Times(Deep(h, t), SelectiveTime), time);
  }

  lemma DiscoveryTimes(h: History, t: int, time: int)
    ensures time in Times(Discoveries(h, t), DiscoveryTime) <==>
            exists f :: f in h.discoveries && f.receivedAt <= t && f.receivedAt == time
  {
    InTimes(Discoveries(h, t), DiscoveryTime, time);
    DiscoveriesAreSeen(h, t);
  }

  lemma DeepTimes(h: History, t: int, time: int)
    ensures time in Times(Deep(h, t), SelectiveTime) <==>
            exists f :: f in h.selective && f.acquisitionMode == HistoricallyAvailable && f.receivedAt <= t
                        && f.receivedAt == time
  {
    InTimes(Deep(h, t), SelectiveTime, time);
    forall f
      ensures f in Deep(h, t) <==> f in h.selective && f.acquisitionMode == HistoricallyAvailable && f.receivedAt <= t
    {
      FilterMembers(h.selective, SelectiveSeen(t), f);
    }
  }

  // ---------------------------------------------------------------- errors

  /** A decision made on later inputs, or a context received before its bucket closed. */
  predicate InvalidDecision(h: History) {
    || (exists f <- h.lifecycle :: f.decidedAt < f.inputWatermark)
    || (exists f <- h.candidates :: f.candidateAt < f.inputWatermark)
    || (exists f <- h.candidateTiers :: f.decidedAt < f.inputWatermark)
  }

  predicate InvalidRecord(h: History) {
    || (exists f <- h.context :: f.receivedAt < f.bucketEnd)
    || (exists f <- h.selective :: f.acquisitionMode !in {HistoricallyAvailable, RetrospectivelyReconstructed})
  }

  lemma InvalidFactsExactly(h: History)
    ensures FactsValid(h) <==> !InvalidDecision(h) && !InvalidRecord(h)
  {
    if FactsValid(h) {
      assert !InvalidDecision(h);
    }
  }

  /** An invalid epoch is refused unless allowed, then an invalid fact is; everything else is answered. */
  lemma AnsweredExactly(h: History, t: int, allowInvalidEpoch: bool)
    ensures GetTokenStateAsOf(h, t, allowInvalidEpoch)
         == if !h.epochDataValid && !allowInvalidEpoch then Failure(InvalidEpoch)
            else if InvalidDecision(h) || InvalidRecord(h) then Failure(InvalidFacts)
            else Success(StateOf(h, t))
    ensures StateOf(h, t).identity == h.identity && StateOf(h, t).decisionAt == t
  {
    InvalidFactsExactly(h);
  }
}
