/** The candidate tables: current state per (epoch, token) and the coverage overlay of the poll
    schedule, under two global budgets. One database transaction is one atomic step. */
module CandidateTiers {
  import opened Quantities
  import opened Wrappers
  import opened CandidatePolicy

  datatype StateKey = StateKey(epoch: nat, token: nat)

  /** The deterministic identity of a tier event. */
  datatype TransitionId = TransitionId(key: StateKey, previous: Tier, target: Tier, evidence: Evidence)

  datatype CurrentState = CurrentState(
    tier: Tier,
    transition: TransitionId,
    tierSince: int,
    coverageExpiresAt: Option<int>,
    nextEvaluationAt: int,
    inputWatermark: int,
    evidence: Evidence)

  datatype Schedule = Schedule(
    retired: bool,
    nextDueAt: Option<int>,
    priority: int,
    targetInterval: Option<int>,
    effectiveInterval: Option<int>,
    nextTransitionAt: Option<int>,
    coverageExpiresAt: Option<int>,
    coverageInterval: Option<int>,
    coverageTransition: Option<TransitionId>,
    updatedAt: int)

  type States = map<StateKey, CurrentState>
  type Schedules = map<nat, Schedule>

  datatype Tables = Tables(states: States, schedules: Schedules)

  predicate InForce(expiry: Option<int>, now: int) { expiry.Some? && now < expiry.value }

  function TierOf(states: States, key: StateKey): Tier {
    if key in states then states[key].tier else Tier0
  }

  // ---------------------------------------------------------------- budgets

  function Tier3Keys(states: States): set<StateKey> {
    set k | k in states && states[k].tier == Tier3
  }

  function ActiveTokens(schedules: Schedules, now: int): set<nat> {
    set t | t in schedules && InForce(schedules[t].coverageExpiresAt, now)
  }

  // ---------------------------------------------------------------- one evaluation, as a function

  /** The tier the step records, or None when it leaves the tables alone. */
  function Settle(db: Tables, key: StateKey, e: Evidence, d: Decision, p: Policy, now: int): Option<Tier> {
    var known := key in db.states;
    var previous := TierOf(db.states, key);
    if known && e.watermark < db.states[key].inputWatermark then None
    else if known && e.watermark == db.states[key].inputWatermark && Rank(d.target) < Rank(previous) then None
    else
      var admitted :=
        if d.target == Tier3 && previous != Tier3 && |Tier3Keys(db.states)| >= p.maxTier3Candidates then previous
        else d.target;
      var covered := known && InForce(db.states[key].coverageExpiresAt, now);
      var target := if !d.eligible && previous != Tier0 && covered then previous else admitted;
      var refresh :=
        && target == previous && target != Tier0 && d.eligible && known && !covered
        && db.states[key].nextEvaluationAt <= now && db.states[key].evidence != e;
      if target == previous && !refresh then None else Some(target)
  }

  /** The coverage the step grants. */
  function Grant(schedules: Schedules, token: nat, d: Decision, p: Policy, now: int, target: Tier): Option<int> {
    if target == Tier0 || token !in schedules then None
    else if InForce(schedules[token].coverageExpiresAt, now) || |ActiveTokens(schedules, now)| < p.maxActiveCoverage
    then d.coverageUntil
    else None
  }

  function Earlier(a: Option<int>, b: int): int {
    if a.Some? && a.value < b then a.value else b
  }

  /** `x or y` of the source: zero counts as absent. */
  function OrElse(x: Option<int>, y: int): int {
    if x.Some? && x.value != 0 then x.value else y
  }

  function Clear(s: Schedule, now: int): Schedule {
    s.(coverageExpiresAt := None, coverageInterval := None, coverageTransition := None, nextTransitionAt := Some(now))
  }

  function Accelerate(s: Schedule, until: int, id: TransitionId, p: Policy, now: int): Schedule {
    var seconds := p.coverageInterval / SECOND;
    s.(coverageExpiresAt := Some(until),
       coverageInterval := Some(seconds),
       coverageTransition := Some(id),
       nextTransitionAt := Some(Earlier(s.nextTransitionAt, until)),
       nextDueAt := if s.retired then None else Some(Earlier(s.nextDueAt, now + seconds * SECOND)),
       priority := if s.priority < 1 then s.priority else 1,
       targetInterval := Some(Earlier(Some(OrElse(s.targetInterval, seconds)), seconds)),
       effectiveInterval := Some(Earlier(Some(OrElse(s.effectiveInterval, seconds)), seconds)))
  }

  function Overlay(s: Schedule, target: Tier, granted: Option<int>, id: TransitionId, p: Policy, now: int): Schedule {
    (if target == Tier0 then Clear(s, now)
     else if granted.Some? then Accelerate(s, granted.value, id, p, now)
     else if s.coverageExpiresAt.Some? && s.coverageExpiresAt.value <= now then Clear(s, now)
     else s).(updatedAt := now)
  }

  function Apply(db: Tables, key: StateKey, e: Evidence, d: Decision, p: Policy, now: int): Tables {
    match Settle(db, key, e, d, p, now)
    case None => db
    case Some(target) => Record(db, key, e, d, p, now, target)
  }

  function Record(db: Tables, key: StateKey, e: Evidence, d: Decision, p: Policy, now: int, target: Tier): Tables {
    var granted := Grant(db.schedules, key.token, d, p, now, target);
    var id := TransitionId(key, TierOf(db.states, key), target, e);
    Tables(
      db.states[key := CurrentState(target, id, now, granted, granted.GetOr(now + MINUTE), e.watermark, e)],
      if key.token in db.schedules
      then db.schedules[key.token := Overlay(db.schedules[key.token], target, granted, id, p, now)]
      else db.schedules)
  }

  // ---------------------------------------------------------------- the repository

  datatype TransitionResult = TransitionResult(
    previous: Tier,
    current: Tier,
    changed: bool,
    coverageExpiresAt: Option<int>)

  class CandidateRepository {
    var states: States
    var schedules: Schedules

    constructor ()
      ensures states == map[] && schedules == map[]
    {
      states, schedules := map[], map[];
    }

    function Contents(): Tables
      reads this
    {
      Tables(states, schedules)
    }

    /** The first half of the transaction, which only reads: watermark guards, Tier 3 budget,
        hysteresis, refresh. Returns None when nothing is to be recorded. */
    method DecideTarget(key: StateKey, e: Evidence, d: Decision, p: Policy, now: int) returns (settled: Option<Tier>)
      ensures settled == Settle(Contents(), key, e, d, p, now)
    {
      var current: Option<CurrentState> := if key in states then Some(states[key]) else None;
      var previous := if current.Some? then current.value.tier else Tier0;
      if current.Some? && e.watermark < current.value.inputWatermark {
        return None;
      }
      var target := d.target;
      if current.Some? && e.watermark == current.value.inputWatermark && Rank(target) < Rank(previous) {
        return None;
      }
      if target == Tier3 && previous != target {
        if |Tier3Keys(states)| >= p.maxTier3Candidates {
          target := previous;
        }
      }
      if !d.eligible && previous != Tier0 && current.Some? && InForce(current.value.coverageExpiresAt, now) {
        target := previous;
      }
      var refresh :=
        && target == previous && target != Tier0 && d.eligible && current.Some?
        && (current.value.coverageExpiresAt.None? || current.value.coverageExpiresAt.value <= now)
        && current.value.nextEvaluationAt <= now && current.value.evidence != e;
      if target == previous && !refresh {
        return None;
      }
      return Some(target);
    }

    /** The second half: coverage budget, state row, schedule row. */
    method RecordTransition(key: StateKey, e: Evidence, d: Decision, p: Policy, now: int, target: Tier)
      returns (granted: Option<int>)
      modifies this
      ensures Contents() == Record(old(Contents()), key, e, d, p, now, target)
      ensures granted == Grant(old(schedules), key.token, d, p, now, target)
    {
      var admitted := false;
      if target != Tier0 && key.token in schedules {
        var active := |ActiveTokens(schedules, now)|;
        var alreadyActive := InForce(schedules[key.token].coverageExpiresAt, now);
        admitted := alreadyActive || active < p.maxActiveCoverage;
      }
      var id := TransitionId(key, TierOf(states, key), target, e);
      granted := if target != Tier0 && admitted then d.coverageUntil else None;
      var nextEvaluationAt := if granted.Some? then granted.value else now + MINUTE;
      states := states[key := CurrentState(target, id, now, granted, nextEvaluationAt, e.watermark, e)];
      if key.token in schedules {
        var schedule := WriteOverlay(schedules[key.token], target, granted, id, p, now);
        schedules := schedules[key.token := schedule];
      }
    }

    /** One transaction of the source. */
    method ApplyEvaluation(epoch: nat, e: Evidence, d: Decision, p: Policy, now: int) returns (r: TransitionResult)
      modifies this
      ensures Contents() == Apply(old(Contents()), StateKey(epoch, e.tokenId), e, d, p, now)
      ensures r.previous == TierOf(old(states), StateKey(epoch, e.tokenId))
      ensures r.current == TierOf(states, StateKey(epoch, e.tokenId))
      ensures r.changed <==> Settle(old(Contents()), StateKey(epoch, e.tokenId), e, d, p, now).Some?
      ensures r.coverageExpiresAt == if StateKey(epoch, e.tokenId) in states
                                     then states[StateKey(epoch, e.tokenId)].coverageExpiresAt else None
    {
      var key := StateKey(epoch, e.tokenId);
      var previous := TierOf(states, key);
      var settled := DecideTarget(key, e, d, p, now);
      if settled.None? {
        return TransitionResult(previous, previous, false, if key in states
            then states[key].coverageExpiresAt else None);
      }
      var granted := RecordTransition(key, e, d, p, now, settled.value);
      return TransitionResult(previous, settled.value, true, granted);
    }

    static method WriteOverlay(row: Schedule, target: Tier, granted: Option<int>, id: TransitionId, p: Policy, now: int)
      returns (s: Schedule)
      ensures s == Overlay(row, target, granted, id, p, now)
    {
      s := row;
      if target == Tier0 {
        s := s.(coverageExpiresAt := None, coverageInterval := None, coverageTransition := None);
        s := s.(nextTransitionAt := Some(now));
      } else if granted.Some? {
        var seconds := p.coverageInterval / SECOND;
        s := s.(coverageExpiresAt := granted, coverageInterval := Some(seconds), coverageTransition := Some(id));
        s := s.(nextTransitionAt := Some(Earlier(s.nextTransitionAt, granted.value)));
        var due := now + seconds * SECOND;
        if s.retired {
          s := s.(nextDueAt := None);
        } else if s.nextDueAt.None? || due < s.nextDueAt.value {
          s := s.(nextDueAt := Some(due));
        }
        s := s.(priority := if s.priority < 1 then s.priority else 1);
        s := s.(targetInterval := Some(Earlier(Some(OrElse(s.targetInterval, seconds)), seconds)));
        s := s.(effectiveInterval := Some(Earlier(Some(OrElse(s.effectiveInterval, seconds)), seconds)));
      } else if s.coverageExpiresAt.Some? && s.coverageExpiresAt.value <= now {
        s := s.(coverageExpiresAt := None, coverageInterval := None, coverageTransition := None);
        s := s.(nextTransitionAt := Some(now));
      }
      s := s.(updatedAt := now);
    }

    /** The service call: read the tier, evaluate, apply, in one transaction that holds the token. */
    method Evaluate(epoch: nat, e: Evidence, p: Policy) returns (r: TransitionResult)
      modifies this
      ensures Contents() == EvaluateNow(old(Contents()), p, epoch, e)
    {
      var key := StateKey(epoch, e.tokenId);
      var tier := if key in states then states[key].tier else Tier0;
      var d := p.Evaluate(e, tier);
      r := ApplyEvaluation(epoch, e, d, p, e.evaluatedAt);
    }
  }

  /** One evaluation whose decision was taken against `readTier`. */
  function EvaluateAt(db: Tables, p: Policy, epoch: nat, e: Evidence, readTier: Tier): Tables {
    Apply(db, StateKey(epoch, e.tokenId), e, p.Evaluate(e, readTier), p, e.evaluatedAt)
  }

  /** One evaluation whose tier read and write are one atomic step. */
  function EvaluateNow(db: Tables, p: Policy, epoch: nat, e: Evidence): Tables {
    EvaluateAt(db, p, epoch, e, TierOf(db.states, StateKey(epoch, e.tokenId)))
  }
}
