/** Runs of the discovery coordinator over the buffer: fetch, commit, then acknowledge, with
    failures between the steps and envelopes arriving at any time. */
module DiscoveryRuns {
  import opened Collections
  import opened Wrappers
  import opened DiscoveryBuffer

  /** Where one coordinator run stops. */
  datatype Fault = NoFault | StopsBeforeCommit | StopsAfterCommit

  datatype Event = Produced(envelope: Envelope) | RanOnce(fault: Fault) | ClosedSource

  /** What left the buffer: an acknowledged batch with the envelopes it was made of, or a parse
      failure that was raised to the coordinator. */
  datatype Delivery = Acknowledged(batch: Batch, part: seq<Envelope>) | Raised(error: nat) {
    function Part(): seq<Envelope> { if Acknowledged? then part else [ParseFailure(error)] }
  }

  /** The source and the database, with the history of what was produced and delivered and the
      envelopes of the batch that waits for acknowledgement. */
  datatype World = World(
    source: Source,
    committed: seq<Batch>,
    produced: seq<Envelope>,
    pending: seq<Envelope>,
    delivered: seq<Delivery>)

  function Start(): World { World(Source([], [], None, 0, false), [], [], [], []) }

  // ---------------------------------------------------------------- steps

  /** The pending batch is acknowledged. */
  function Release(w: World): World
    requires w.source.unacknowledged.Some?
  {
    w.(source := w.source.(unacknowledged := None), pending := [],
       delivered := w.delivered + [Acknowledged(w.source.unacknowledged.value, w.pending)])
  }

  function RunOnce(w: World, size: nat, fault: Fault): World
    requires 0 < size
  {
    var (fetched, r) := Fetch(w.source, size);
    match r
    case Failure(Closed) => w
    case Failure(Unparsable(error)) => w.(source := fetched, delivered := w.delivered + [Raised(error)])
    case Success(batch) =>
      var part := if w.source.unacknowledged.Some? then w.pending else NextPart(w.source, size);
      var served := w.(source := fetched, pending := part);
      if fault == StopsBeforeCommit then served
      else
        var stored := served.(committed := served.committed + [batch]);
        if fault == StopsAfterCommit || fetched.unacknowledged.None? then stored else Release(stored)
  }

  function StepOf(w: World, size: nat, capacity: nat, e: Event): World
    requires 0 < size
  {
    match e
    case Produced(envelope) =>
      if |w.source.queue| < capacity && !w.source.closing
      then w.(source := w.source.(queue := w.source.queue + [envelope]), produced := w.produced + [envelope])
      else w
    case RanOnce(fault) => RunOnce(w, size, fault)
    case ClosedSource => w.(source := w.source.(closing := true))
  }

  function Run(size: nat, capacity: nat, events: seq<Event>): World
    requires 0 < size
  {
    if events == [] then Start()
    else StepOf(Run(size, capacity, events[..|events| - 1]), size, capacity, events[|events| - 1])
  }

  // ---------------------------------------------------------------- the coordinator

  class Database {
    var committed: seq<Batch>

    constructor ()
      ensures committed == []
    {
      committed := [];
    }
  }

  /** One run of the coordinator against the real source and database. */
  method RunCoordinator(source: PumpPortalSource, db: Database, size: nat, fault: Fault, ghost w: World)
    requires 0 < size
    requires w.source == source.Contents() && w.committed == db.committed
    modifies source, db
    ensures RunOnce(w, size, fault).source == source.Contents()
    ensures RunOnce(w, size, fault).committed == db.committed
  {
    var batch := source.FetchBatch(size);
    if batch.Failure? || fault == StopsBeforeCommit {
      return;
    }
    db.committed := db.committed + [batch.value];
    if fault == StopsAfterCommit {
      return;
    }
    var acknowledged := source.AcknowledgeBatch(batch.value);
  }

  // ---------------------------------------------------------------- invariant

  function Parts(delivered: seq<Delivery>): seq<Envelope> {
    if delivered == [] then []
    else Parts(delivered[..|delivered| - 1]) + delivered[|delivered| - 1].Part()
  }

  lemma PartsPush(delivered: seq<Delivery>, d: Delivery)
    ensures Parts(delivered + [d]) == Parts(delivered) + d.Part()
  {
    assert (delivered + [d])[..|delivered|] == delivered;
  }

  /** A batch made of between 1 and `size` envelopes, none of them a parse failure. */
  predicate Holds(batch: Batch, part: seq<Envelope>, size: nat) {
    && batch == BatchOf(batch.serial, part)
    && 0 < |part| <= size
    && forall i :: 0 <= i < |part| ==> !part[i].ParseFailure?
  }

  predicate DeliveryOk(w: World, size: nat, d: Delivery) {
    d.Acknowledged? ==> Holds(d.batch, d.part, size) && d.batch in w.committed
  }

  ghost predicate Ok(w: World, size: nat) {
    && w.produced == Parts(w.delivered) + w.pending + Buffer(w.source)
    && (w.source.unacknowledged.None? ==> w.pending == [])
    && (w.source.unacknowledged.Some? ==> Holds(w.source.unacknowledged.value, w.pending, size))
    && forall i :: 0 <= i < |w.delivered| ==> DeliveryOk(w, size, w.delivered[i])
  }

  /** The part of a new batch: the front of the buffer, up to the first parse failure. */
  lemma NewPartHolds(s: Source, size: nat)
    requires 0 < size && Buffer(s) != [] && !Buffer(s)[0].ParseFailure?
    ensures Holds(BatchOf(s.serial, NextPart(s, size)), NextPart(s, size), size)
    ensures NextPart(s, size) + Buffer(s)[|NextPart(s, size)|..] == Buffer(s)
  {
  }

  lemma EmptyBufferPart(s: Source, size: nat)
    requires Buffer(s) == []
    ensures NextPart(s, size) == []
  {
  }

  lemma RaiseKeepsOk(w: World, size: nat)
    requires 0 < size && Ok(w, size) && !w.source.closing && w.source.unacknowledged.None?
    requires Buffer(w.source) != [] && Buffer(w.source)[0].ParseFailure?
    ensures Ok(RunOnce(w, size, NoFault), size)
    ensures forall fault :: RunOnce(w, size, fault) == RunOnce(w, size, NoFault)
  {
    ConsumeRemovesFront(w.source, size, 1);
    PartsPush(w.delivered, Raised(Buffer(w.source)[0].error));
    FrontMoves(Parts(w.delivered), Buffer(w.source));
  }

  lemma FrontMoves(p: seq<Envelope>, b: seq<Envelope>)
    requires b != []
    ensures p + [] + b == p + [b[0]] + [] + b[1..]
  {
  }

  /** After a fetch that served a batch, new or again. */
  lemma ServeKeepsOk(w: World, size: nat)
    requires 0 < size && Ok(w, size) && Fetch(w.source, size).1.Success?
    ensures Ok(RunOnce(w, size, StopsBeforeCommit), size)
  {
    if w.source.unacknowledged.None? {
      if Buffer(w.source) == [] {
        EmptyBufferPart(w.source, size);
      } else {
        NewPartIsServed(w, size);
      }
    }
  }

  lemma NewPartIsServed(w: World, size: nat)
    requires 0 < size && Ok(w, size) && w.source.unacknowledged.None? && !w.source.closing
    requires Buffer(w.source) != [] && !Buffer(w.source)[0].ParseFailure?
    ensures Ok(RunOnce(w, size, StopsBeforeCommit), size)
  {
    var part := NextPart(w.source, size);
    NewPartHolds(w.source, size);
    ConsumeRemovesFront(w.source, size, |part|);
    assert Parts(w.delivered) + [] + Buffer(w.source) == Parts(w.delivered) + part + Buffer(w.source)[|part|..];
  }

  lemma CommitKeepsOk(w: World, size: nat, batch: Batch)
    requires Ok(w, size)
    ensures Ok(w.(committed := w.committed + [batch]), size)
  {
    forall i | 0 <= i < |w.delivered|
      ensures DeliveryOk(w.(committed := w.committed + [batch]), size, w.delivered[i])
    {
      assert DeliveryOk(w, size, w.delivered[i]);
    }
  }

  lemma ReleaseKeepsOk(w: World, size: nat)
    requires Ok(w, size) && w.source.unacknowledged.Some? && w.source.unacknowledged.value in w.committed
    ensures Ok(Release(w), size)
  {
    var after := Release(w);
    PartsPush(w.delivered, Acknowledged(w.source.unacknowledged.value, w.pending));
    AddNothing(Parts(after.delivered));
    forall i | 0 <= i < |after.delivered|
      ensures DeliveryOk(after, size, after.delivered[i])
    {
      assert i < |w.delivered| ==> DeliveryOk(w, size, w.delivered[i]);
    }
  }

  lemma AcknowledgeKeepsOk(w: World, size: nat)
    requires 0 < size && Ok(w, size) && Fetch(w.source, size).1.Success?
    ensures Ok(RunOnce(w, size, StopsAfterCommit), size)
    ensures Ok(RunOnce(w, size, NoFault), size)
  {
    var batch := Fetch(w.source, size).1.value;
    var served := RunOnce(w, size, StopsBeforeCommit);
    RunOnceStages(w, size, batch);
    ServeKeepsOk(w, size);
    CommitKeepsOk(served, size, batch);
    ReleaseAfterCommit(served, size, batch);
  }

  /** How far a run gets with each fault. */
  lemma RunOnceStages(w: World, size: nat, batch: Batch)
    requires 0 < size && Fetch(w.source, size).1 == Success(batch)
    ensures var served := RunOnce(w, size, StopsBeforeCommit);
      var stored := served.(committed := served.committed + [batch]);
      && RunOnce(w, size, StopsAfterCommit) == stored
      && RunOnce(w, size, NoFault) == (if stored.source.unacknowledged.Some? then Release(stored) else stored)
      && (served.source.unacknowledged.Some? ==> served.source.unacknowledged.value == batch)
  {
  }

  lemma ReleaseAfterCommit(served: World, size: nat, batch: Batch)
    requires Ok(served.(committed := served.committed + [batch]), size)
    requires served.source.unacknowledged.Some? ==> served.source.unacknowledged.value == batch
    ensures served.source.unacknowledged.Some? ==> Ok(Release(served.(committed := served.committed + [batch])), size)
  {
    var stored := served.(committed := served.committed + [batch]);
    if stored.source.unacknowledged.Some? {
      assert stored.committed[|served.committed|] == batch;
      ReleaseKeepsOk(stored, size);
    }
  }

  lemma StepKeepsOk(w: World, size: nat, capacity: nat, e: Event)
    requires 0 < size && Ok(w, size)
    ensures Ok(StepOf(w, size, capacity, e), size)
  {
    match e
    case Produced(envelope) =>
      assert w.source.deferred + (w.source.queue + [envelope]) == Buffer(w.source) + [envelope];
    case RanOnce(fault) =>
      if Fetch(w.source, size).1.Success? {
        ServeKeepsOk(w, size);
        AcknowledgeKeepsOk(w, size);
      } else if !w.source.closing {
        RaiseKeepsOk(w, size);
      }
    case ClosedSource =>
  }

  /** In every run: the acknowledged batches and raised failures, the pending batch and the buffer
      together are everything that was produced, once and in order; no batch exceeds the size or
      hides a failure; and every acknowledged batch was committed. */
  lemma {:induction false} RunKeepsOk(size: nat, capacity: nat, events: seq<Event>)
    requires 0 < size
    ensures Ok(Run(size, capacity, events), size)
  {
    if events != [] {
      RunKeepsOk(size, capacity, events[..|events| - 1]);
      StepKeepsOk(Run(size, capacity, events[..|events| - 1]), size, capacity, events[|events| - 1]);
    }
  }

  // ---------------------------------------------------------------- kinds and failures

  function KindOfBatch(batch: Batch, kind: Kind): seq<nat> {
    match kind
    case TokenKind => batch.events
    case ConnectivityKind => batch.connectivity
    case RejectedKind => batch.rejected
    case FailureKind => []
  }

  function KindOfDelivery(d: Delivery, kind: Kind): seq<nat> {
    if d.Acknowledged? then KindOfBatch(d.batch, kind)
    else if kind == FailureKind then [d.error] else []
  }

  /** What the deliveries hold of one kind, batch by batch; failures are the raised ones. */
  function DeliveredOf(delivered: seq<Delivery>, kind: Kind): seq<nat> {
    if delivered == [] then []
    else
      var d := delivered[|delivered| - 1];
      DeliveredOf(delivered[..|delivered| - 1], kind) + KindOfDelivery(d, kind)
  }

  lemma {:induction false} NoFailureIn(part: seq<Envelope>)
    requires forall i :: 0 <= i < |part| ==> !part[i].ParseFailure?
    ensures Of(part, FailureKind) == []
  {
    if part != [] {
      NoFailureIn(part[..|part| - 1]);
    }
  }

  lemma PartKinds(d: Delivery, size: nat, kind: Kind)
    requires d.Acknowledged? ==> Holds(d.batch, d.part, size)
    ensures Of(d.Part(), kind) == KindOfDelivery(d, kind)
  {
    if d.Acknowledged? {
      NoFailureIn(d.part);
    } else {
      assert d.Part()[..0] == [];
    }
  }

  lemma {:induction false} DeliveredKinds(delivered: seq<Delivery>, size: nat, kind: Kind)
    requires forall i :: 0 <= i < |delivered| && delivered[i].Acknowledged? ==>
      Holds(delivered[i].batch, delivered[i].part, size)
    ensures Of(Parts(delivered), kind) == DeliveredOf(delivered, kind)
  {
    if delivered != [] {
      var n := |delivered| - 1;
      DeliveredKinds(delivered[..n], size, kind);
      PartKinds(delivered[n], size, kind);
      OfAppend(Parts(delivered[..n]), delivered[n].Part(), kind);
    }
  }

  /** Of every kind, what was delivered, what is pending and what is buffered is what was produced,
      in order: no event is lost, duplicated or reordered within its kind, and every parse failure
      is raised exactly once or still buffered. */
  lemma EveryKindInOrder(size: nat, capacity: nat, events: seq<Event>, kind: Kind)
    requires 0 < size
    ensures var w := Run(size, capacity, events);
      Of(w.produced, kind) == DeliveredOf(w.delivered, kind)
        + (if w.source.unacknowledged.Some? then KindOfBatch(w.source.unacknowledged.value, kind) else [])
        + Of(Buffer(w.source), kind)
  {
    RunKeepsOk(size, capacity, events);
    var w := Run(size, capacity, events);
    forall i | 0 <= i < |w.delivered| && w.delivered[i].Acknowledged?
      ensures Holds(w.delivered[i].batch, w.delivered[i].part, size)
    {
      assert DeliveryOk(w, size, w.delivered[i]);
    }
    DeliveredKinds(w.delivered, size, kind);
    OfAppend(Parts(w.delivered) + w.pending, Buffer(w.source), kind);
    OfAppend(Parts(w.delivered), w.pending, kind);
    if w.source.unacknowledged.Some? {
      NoFailureIn(w.pending);
    }
  }

  /** A failure is raised only when nothing is pending: everything produced before it has been
      acknowledged, hence committed, or raised. */
  lemma FailureIsRaisedInTurn(w: World, size: nat, fault: Fault)
    requires 0 < size && Ok(w, size)
    requires |RunOnce(w, size, fault).delivered| == |w.delivered| + 1
    requires RunOnce(w, size, fault).delivered[|w.delivered|].Raised?
    ensures w.source.unacknowledged.None?
    ensures |Parts(w.delivered)| < |w.produced| && w.produced[..|Parts(w.delivered)|] == Parts(w.delivered)
    ensures w.produced[|Parts(w.delivered)|] == ParseFailure(RunOnce(w, size, fault).delivered[|w.delivered|].error)
    ensures forall i :: 0 <= i < |w.delivered| && w.delivered[i].Acknowledged? ==> w.delivered[i].batch in w.committed
  {
    var b := Buffer(w.source);
    assert w.produced == Parts(w.delivered) + b;
    forall i | 0 <= i < |w.delivered| && w.delivered[i].Acknowledged?
      ensures w.delivered[i].batch in w.committed
    {
      assert DeliveryOk(w, size, w.delivered[i]);
    }
  }

  /** A pending batch is served again unchanged, whatever arrived since, until it is acknowledged. */
  lemma PendingIsServedAgain(w: World, size: nat, capacity: nat, arrivals: seq<Envelope>)
    requires 0 < size && w.source.unacknowledged.Some? && !w.source.closing
    ensures var later := Arrive(w, size, capacity, arrivals);
      && Fetch(later.source, size).1 == Success(w.source.unacknowledged.value)
      && later.source.unacknowledged == w.source.unacknowledged && later.pending == w.pending
      && !later.source.closing
      && RunOnce(later, size, StopsBeforeCommit) == later
  {
    if arrivals != [] {
      PendingIsServedAgain(w, size, capacity, arrivals[..|arrivals| - 1]);
    }
  }

  function Arrive(w: World, size: nat, capacity: nat, arrivals: seq<Envelope>): World
    requires 0 < size
  {
    if arrivals == [] then w
    else StepOf(Arrive(w, size, capacity, arrivals[..|arrivals| - 1]), size, capacity,
        Produced(arrivals[|arrivals| - 1]))
  }

  // ---------------------------------------------------------------- progress

  /** One run of the coordinator without faults. */
  function CleanRun(size: nat): World -> World
    requires 0 < size
  {
    (w: World) => RunOnce(w, size, NoFault)
  }

  function Repeat<T>(step: T -> T, w: T, times: nat): T {
    if times == 0 then w else step(Repeat(step, w, times - 1))
  }

  function Outstanding(w: World): nat { |w.pending| + |Buffer(w.source)| }

  /** What a run without faults keeps and achieves: it delivers something whenever anything is
      outstanding. */
  predicate Progressed(w: World, after: World) {
    && !after.source.closing && after.produced == w.produced
    && (0 < Outstanding(w) ==> Outstanding(after) < Outstanding(w))
    && (Outstanding(w) == 0 ==> Outstanding(after) == 0)
  }

  lemma RunMakesProgress(w: World, size: nat)
    requires 0 < size && Ok(w, size) && !w.source.closing
    ensures Ok(RunOnce(w, size, NoFault), size) && Progressed(w, RunOnce(w, size, NoFault))
  {
    StepKeepsOk(w, size, 0, RanOnce(NoFault));
    if w.source.unacknowledged.Some? {
      PendingIsReleased(w, size);
    } else if Buffer(w.source) == [] {
      NothingIsReleased(w, size);
    } else if Buffer(w.source)[0].ParseFailure? {
      FailureIsReleased(w, size);
    } else {
      NewPartIsReleased(w, size);
    }
  }

  lemma NothingIsReleased(w: World, size: nat)
    requires 0 < size && Ok(w, size) && !w.source.closing && w.source.unacknowledged.None? && Buffer(w.source) == []
    ensures Progressed(w, RunOnce(w, size, NoFault))
  {
    EmptyBufferPart(w.source, size);
  }

  lemma FailureIsReleased(w: World, size: nat)
    requires 0 < size && Ok(w, size) && !w.source.closing && w.source.unacknowledged.None?
    requires Buffer(w.source) != [] && Buffer(w.source)[0].ParseFailure?
    ensures Progressed(w, RunOnce(w, size, NoFault))
  {
    ConsumeRemovesFront(w.source, size, 1);
  }

  lemma PendingIsReleased(w: World, size: nat)
    requires 0 < size && Ok(w, size) && !w.source.closing && w.source.unacknowledged.Some?
    ensures Progressed(w, RunOnce(w, size, NoFault))
  {
    assert 0 < |w.pending|;
  }

  lemma NewPartIsReleased(w: World, size: nat)
    requires 0 < size && Ok(w, size) && !w.source.closing && w.source.unacknowledged.None?
    requires Buffer(w.source) != [] && !Buffer(w.source)[0].ParseFailure?
    ensures Progressed(w, RunOnce(w, size, NoFault))
  {
    NewPartHolds(w.source, size);
    ConsumeRemovesFront(w.source, size, |NextPart(w.source, size)|);
  }

  /** Repeating a step that keeps an invariant and reduces what is left, until nothing is left. */
  lemma {:induction false} RepeatCountsDown<T(!new)>(step: T -> T, keep: T -> bool, left: T -> nat, w: T, times: nat)
    requires forall x: T :: keep(x) ==>
      && keep(step(x))
      && (if left(x) == 0 then left(step(x)) == 0 else left(step(x)) < left(x))
    requires keep(w)
    ensures keep(Repeat(step, w, times))
    ensures left(Repeat(step, w, times)) <= if times < left(w) then left(w) - times else 0
  {
    if 0 < times {
      RepeatCountsDown(step, keep, left, w, times - 1);
    }
  }

  /** What runs without faults keep. */
  ghost function Steady(size: nat, produced: seq<Envelope>): World -> bool {
    (w: World) => Ok(w, size) && !w.source.closing && w.produced == produced
  }

  lemma CleanRunsProgress(size: nat, produced: seq<Envelope>)
    requires 0 < size
    ensures forall x: World :: Steady(size, produced)(x) ==>
      && Steady(size, produced)(CleanRun(size)(x))
      && (if Outstanding(x) == 0 then Outstanding(CleanRun(size)(x)) == 0
          else Outstanding(CleanRun(size)(x)) < Outstanding(x))
  {
    forall x: World | Steady(size, produced)(x)
      ensures Ok(CleanRun(size)(x), size) && Progressed(x, CleanRun(size)(x))
    {
      RunMakesProgress(x, size);
    }
  }

  /** As many runs without faults as envelopes are outstanding deliver everything produced. */
  lemma EverythingIsDelivered(w: World, size: nat, times: nat)
    requires 0 < size && Ok(w, size) && !w.source.closing && Outstanding(w) <= times
    ensures Parts(Repeat(CleanRun(size), w, times).delivered) == w.produced
  {
    CleanRunsProgress(size, w.produced);
    RepeatCountsDown(CleanRun(size), Steady(size, w.produced), Outstanding, w, times);
    NothingOutstanding(Repeat(CleanRun(size), w, times), size);
  }

  lemma NothingOutstanding(w: World, size: nat)
    requires Ok(w, size) && Outstanding(w) == 0
    ensures Parts(w.delivered) == w.produced
  {
    assert w.pending == [] && Buffer(w.source) == [];
  }
}
