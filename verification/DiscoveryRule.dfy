/** What one fetch, acknowledgement and coordinator run do, envelope by envelope. */
module DiscoveryRule {
  import opened Wrappers
  import opened DiscoveryBuffer
  import opened DiscoveryRuns

  /** The contents of one envelope, by kind; a batch lists those of its envelopes in order. */
  lemma KindsExactly(x: nat, kind: Kind, a: seq<Envelope>, b: seq<Envelope>)
    ensures Of([], kind) == []
    ensures Of([Token(x)], kind) == if kind == TokenKind then [x] else []
    ensures Of([Connectivity(x)], kind) == if kind == ConnectivityKind then [x] else []
    ensures Of([Rejected(x)], kind) == if kind == RejectedKind then [x] else []
    ensures Of([ParseFailure(x)], kind) == if kind == FailureKind then [x] else []
    ensures Of(a + b, kind) == Of(a, kind) + Of(b, kind)
  {
    OfAppend(a, b, kind);
    assert [Token(x)][..0] == [] && [Connectivity(x)][..0] == [];
    assert [Rejected(x)][..0] == [] && [ParseFailure(x)][..0] == [];
  }

  /** n envelopes from the front of the buffer: as many as fit before the first parse failure. */
  predicate Front(buffer: seq<Envelope>, size: nat, n: nat) {
    && n <= size && n <= |buffer|
    && (forall i :: 0 <= i < n ==> !buffer[i].ParseFailure?)
    && (n == size || n == |buffer| || buffer[n].ParseFailure?)
  }

  /** The batch holds these envelopes, each under its kind and in order. */
  predicate HoldsFront(batch: Batch, part: seq<Envelope>) {
    && batch.events == Of(part, TokenKind)
    && batch.connectivity == Of(part, ConnectivityKind)
    && batch.rejected == Of(part, RejectedKind)
  }

  /** A closed source raises; a pending batch is served again; an empty buffer gives an empty batch that
      needs no acknowledgement. */
  lemma FetchOfNothingNew(s: Source, size: nat)
    requires 0 < size
    ensures s.closing ==> Fetch(s, size) == (s, Failure(Closed))
    ensures !s.closing && s.unacknowledged.Some? ==> Fetch(s, size) == (s, Success(s.unacknowledged.value))
    ensures !s.closing && s.unacknowledged.None? && s.deferred + s.queue == [] ==>
      && Fetch(s, size).1 == Success(Batch(s.serial, [], [], []))
      && Fetch(s, size).0.unacknowledged.None? && Fetch(s, size).0.deferred + Fetch(s, size).0.queue == []
  {
  }

  /** A parse failure in front is raised and removed, and nothing else is. */
  lemma FetchOfFailure(s: Source, size: nat)
    requires 0 < size && !s.closing && s.unacknowledged.None?
    requires s.deferred + s.queue != [] && (s.deferred + s.queue)[0].ParseFailure?
    ensures var (after, r) := Fetch(s, size);
      && r == Failure(Unparsable((s.deferred + s.queue)[0].error))
      && after.unacknowledged.None? && !after.closing
      && after.deferred + after.queue == (s.deferred + s.queue)[1..]
  {
    ConsumeRemovesFront(s, size, 1);
  }

  /** Otherwise a new batch holds the front of the buffer, up to the size and the first parse failure,
      which is removed, and waits for acknowledgement. */
  lemma FetchOfFront(s: Source, size: nat, n: nat)
    requires 0 < size && !s.closing && s.unacknowledged.None?
    requires s.deferred + s.queue != [] && !(s.deferred + s.queue)[0].ParseFailure?
    requires Front(s.deferred + s.queue, size, n)
    ensures 0 < n
    ensures var (after, r) := Fetch(s, size);
      && r.Success? && HoldsFront(r.value, (s.deferred + s.queue)[..n])
      && r.value.serial == s.serial && after.serial == s.serial + 1
      && after.unacknowledged == Some(r.value) && !after.closing
      && after.deferred + after.queue == (s.deferred + s.queue)[n..]
  {
    var buffer := Buffer(s);
    var part := NextPart(s, size);
    ConsumeRemovesFront(s, size, |part|);
    FrontIsUnique(buffer, size, n, |part|);
    assert part == buffer[..n];
  }

  lemma FrontIsUnique(buffer: seq<Envelope>, size: nat, m: nat, n: nat)
    requires Front(buffer, size, m) && Front(buffer, size, n)
    ensures m == n
  {
  }

  /** Only the pending batch can be acknowledged, and nothing but it is released. */
  lemma AcknowledgedExactly(s: Source, batch: Batch)
    ensures var r := Acknowledge(s, batch);
      if s.unacknowledged.Some? && s.unacknowledged.value != batch then r == Failure(DifferentBatch)
      else
        && r.Success? && r.value.unacknowledged.None?
        && r.value.deferred == s.deferred && r.value.queue == s.queue && r.value.serial == s.serial
        && r.value.closing == s.closing
  {
  }

  /** A run commits the fetched batch once, unless it raised or stopped before, and acknowledges it only
      after the commit. */
  lemma RunExactly(w: World, size: nat, fault: Fault)
    requires 0 < size
    ensures var (fetched, r) := Fetch(w.source, size);
      var after := RunOnce(w, size, fault);
      && after.committed == w.committed
                            + (if r.Success? && fault != StopsBeforeCommit then [r.value] else [])
      && after.source == (if r.Success? && fault == NoFault then fetched.(unacknowledged := None) else fetched)
      && after.produced == w.produced
  {
    var (fetched, r) := Fetch(w.source, size);
    if r.Success? && fetched.unacknowledged.None? {
      assert fetched.(unacknowledged := None) == fetched;
    }
  }

  /** An envelope is appended to the queue if there is room and the source is not closing. */
  lemma ProducedExactly(w: World, size: nat, capacity: nat, envelope: Envelope)
    requires 0 < size
    ensures var after := StepOf(w, size, capacity, Produced(envelope));
      && after.source.queue == (w.source.queue
                                + if |w.source.queue| < capacity && !w.source.closing then [envelope] else [])
      && after.source == w.source.(queue := after.source.queue)
      && after.committed == w.committed && after.delivered == w.delivered && after.pending == w.pending
  {
    assert w.source.queue + [] == w.source.queue;
  }
}
