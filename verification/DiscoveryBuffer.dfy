/** The live discovery buffer: a bounded queue with push-back, one batch at a time that is served
    again until it is acknowledged, and acknowledgement only after the commit. */
module DiscoveryBuffer {
  import opened Collections
  import opened Quantities
  import opened Wrappers

  datatype Envelope =
    | Token(event: nat)
    | Connectivity(event: nat)
    | Rejected(event: nat)
    | ParseFailure(error: nat)

  /** A fetched batch; the serial number stands for the identity of the batch object. */
  datatype Batch = Batch(serial: nat, events: seq<nat>, connectivity: seq<nat>, rejected: seq<nat>)

  datatype Source = Source(
    queue: seq<Envelope>,
    deferred: seq<Envelope>,
    unacknowledged: Option<Batch>,
    serial: nat,
    closing: bool)

  datatype FetchError = Closed | Unparsable(error: nat)
  datatype AckError = DifferentBatch

  // ---------------------------------------------------------------- kinds

  datatype Kind = TokenKind | ConnectivityKind | RejectedKind | FailureKind

  function KindOf(e: Envelope): Kind {
    match e
    case Token(_) => TokenKind
    case Connectivity(_) => ConnectivityKind
    case Rejected(_) => RejectedKind
    case ParseFailure(_) => FailureKind
  }

  function ValueOf(e: Envelope): nat { if e.ParseFailure? then e.error else e.event }

  /** The contents of the envelopes of one kind, in order. */
  function Of(s: seq<Envelope>, kind: Kind): seq<nat> {
    if s == [] then []
    else Of(s[..|s| - 1], kind) + if KindOf(s[|s| - 1]) == kind then [ValueOf(s[|s| - 1])] else []
  }

  lemma {:induction false} OfAppend(a: seq<Envelope>, b: seq<Envelope>, kind: Kind)
    ensures Of(a + b, kind) == Of(a, kind) + Of(b, kind)
  {
    if b == [] {
      assert a + b == a;
    } else {
      var n := |b| - 1;
      OfAppend(a, b[..n], kind);
      SplitLast(a, b);
    }
  }

  // ---------------------------------------------------------------- fetch and acknowledge, as functions

  function Buffer(s: Source): seq<Envelope> { s.deferred + s.queue }

  /** How many envelopes precede the first parse failure. */
  function BeforeFailure(s: seq<Envelope>): (k: nat)
    ensures k <= |s| && (forall i :: 0 <= i < k ==> !s[i].ParseFailure?) && (k < |s| ==> s[k].ParseFailure?)
  {
    if s == [] || s[0].ParseFailure? then 0 else 1 + BeforeFailure(s[1..])
  }

  function BatchOf(serial: nat, part: seq<Envelope>): Batch {
    Batch(serial, Of(part, TokenKind), Of(part, ConnectivityKind), Of(part, RejectedKind))
  }

  /** The envelopes that the next new batch holds. */
  function NextPart(s: Source, size: nat): seq<Envelope> {
    var taken := Buffer(s)[..Min(size, |Buffer(s)|)];
    taken[..BeforeFailure(taken)]
  }

  /** What is left of a queue when up to k elements were taken from its front. */
  function Rest(s: seq<Envelope>, k: int): seq<Envelope> {
    if k <= 0 then s else if |s| <= k then [] else s[k..]
  }

  /** The source after the front of the buffer was taken and its tail pushed back. */
  function Consume(s: Source, size: nat, used: nat): Source
    requires used <= Min(size, |Buffer(s)|)
  {
    var n := Min(size, |Buffer(s)|);
    s.(deferred := Buffer(s)[used..n] + Rest(s.deferred, n), queue := Rest(s.queue, n - |s.deferred|))
  }

  function Fetch(s: Source, size: nat): (Source, Result<Batch, FetchError>)
    requires 0 < size
  {
    if s.closing then (s, Failure(Closed))
    else if s.unacknowledged.Some? then (s, Success(s.unacknowledged.value))
    else if Buffer(s) == [] then (s.(serial := s.serial + 1), Success(Batch(s.serial, [], [], [])))
    else if Buffer(s)[0].ParseFailure? then (Consume(s, size, 1), Failure(Unparsable(Buffer(s)[0].error)))
    else
      var batch := BatchOf(s.serial, NextPart(s, size));
      (Consume(s, size, |NextPart(s, size)|).(unacknowledged := Some(batch), serial := s.serial + 1), Success(batch))
  }

  function Acknowledge(s: Source, batch: Batch): Result<Source, AckError> {
    if s.unacknowledged.None? then Success(s)
    else if s.unacknowledged.value != batch then Failure(DifferentBatch)
    else Success(s.(unacknowledged := None))
  }

  /** Taking the front of the buffer and pushing back what was not used removes exactly what was
      used. */
  lemma ConsumeRemovesFront(s: Source, size: nat, used: nat)
    requires used <= Min(size, |Buffer(s)|)
    ensures Buffer(Consume(s, size, used)) == Buffer(s)[used..]
  {
    var n := Min(size, |Buffer(s)|);
    RestOfBoth(s.deferred, s.queue, n);
    TailJoins(Buffer(s), used, n);
    assert Buffer(Consume(s, size, used)) == Buffer(s)[used..n] + (Rest(s.deferred, n)
        + Rest(s.queue, n - |s.deferred|));
  }

  lemma RestOfBoth(front: seq<Envelope>, back: seq<Envelope>, k: nat)
    requires k <= |front + back|
    ensures Rest(front, k) + Rest(back, k - |front|) == (front + back)[k..]
  {
    if k <= |front| {
      assert (front + back)[k..] == front[k..] + back;
    } else {
      assert (front + back)[k..] == back[k - |front|..];
    }
  }

  lemma TailJoins(b: seq<Envelope>, used: nat, n: nat)
    requires used <= n <= |b|
    ensures b[used..n] + b[n..] == b[used..]
  {
  }

  /** Popping one more envelope, from the front queue while it lasts. */
  lemma PopOneMore(front: seq<Envelope>, back: seq<Envelope>, k: nat)
    requires k <= |front + back|
    ensures k == |front + back| ==> Rest(front, k) == [] && Rest(back, k - |front|) == []
    ensures k < |front| ==>
      && Rest(front, k) != [] && Rest(front, k)[0] == (front + back)[k]
      && Rest(front, k + 1) == Rest(front, k)[1..] && Rest(back, k + 1 - |front|) == Rest(back, k - |front|)
    ensures |front| <= k < |front + back| ==>
      && Rest(front, k) == [] && Rest(front, k + 1) == []
      && Rest(back, k - |front|) != [] && Rest(back, k - |front|)[0] == (front + back)[k]
      && Rest(back, k + 1 - |front|) == Rest(back, k - |front|)[1..]
  {
  }

  lemma TailOfTaken(b: seq<Envelope>, n: nat, k: nat)
    requires k <= n <= |b|
    ensures b[..n][k..] == b[k..n]
  {
  }

  // ---------------------------------------------------------------- the source object

  class PumpPortalSource {
    var queue: seq<Envelope>
    var deferred: seq<Envelope>
    var unacknowledged: Option<Batch>
    var serial: nat
    var closing: bool

    constructor ()
      ensures Contents() == Source([], [], None, 0, false)
    {
      queue, deferred, unacknowledged, serial, closing := [], [], None, 0, false;
    }

    function Contents(): Source
      reads this
    {
      Source(queue, deferred, unacknowledged, serial, closing)
    }

    /** The reader's side; a full queue blocks it. */
    method Put(envelope: Envelope, capacity: nat) returns (accepted: bool)
      modifies this`queue
      ensures accepted <==> old(|queue|) < capacity
      ensures queue == old(queue) + if accepted then [envelope] else []
    {
      accepted := |queue| < capacity;
      if accepted {
        queue := queue + [envelope];
      }
    }

    method NextEnvelope() returns (envelope: Option<Envelope>)
      modifies this`queue, this`deferred
      ensures old(deferred + queue) == [] ==> envelope == None && deferred == [] && queue == []
      ensures old(deferred + queue) != [] ==> envelope == Some(old(deferred + queue)[0])
      ensures old(deferred) != [] ==> deferred == old(deferred)[1..] && queue == old(queue)
      ensures old(deferred) == [] && old(queue) != [] ==> deferred == [] && queue == old(queue)[1..]
    {
      if deferred != [] {
        envelope := Some(deferred[0]);
        deferred := deferred[1..];
      } else if queue != [] {
        envelope := Some(queue[0]);
        queue := queue[1..];
      } else {
        envelope := None;
      }
    }

    /** Pops the next envelope after k have been popped from the two queues. */
    method PopNext(ghost front: seq<Envelope>, ghost back: seq<Envelope>, ghost k: nat)
      returns (envelope: Option<Envelope>)
      requires k <= |front + back| && deferred == Rest(front, k) && queue == Rest(back, k - |front|)
      modifies this`queue, this`deferred
      ensures envelope == if k < |front + back| then Some((front + back)[k]) else None
      ensures var n := if k < |front + back| then k + 1 else k;
        deferred == Rest(front, n) && queue == Rest(back, n - |front|)
    {
      PopOneMore(front, back, k);
      envelope := NextEnvelope();
    }

    /** Pops up to `size` envelopes, deferred ones first. */
    method TakeEnvelopes(size: nat) returns (taken: seq<Envelope>)
      modifies this`queue, this`deferred
      ensures var n := Min(size, |old(deferred + queue)|);
        && taken == old(deferred + queue)[..n]
        && deferred == Rest(old(deferred), n) && queue == Rest(old(queue), n - |old(deferred)|)
    {
      taken := [];
      ghost var front, back := deferred, queue;
      ghost var all := front + back;
      while |taken| < size
        invariant |taken| <= size && |taken| <= |all|
        invariant taken == all[..|taken|]
        invariant deferred == Rest(front, |taken|) && queue == Rest(back, |taken| - |front|)
      {
        ghost var k := |taken|;
        var envelope := PopNext(front, back, k);
        if envelope.None? {
          break;
        }
        taken := taken + [envelope.value];
        assert taken == all[..k + 1];
      }
    }

    method FetchBatch(size: nat) returns (r: Result<Batch, FetchError>)
      requires 0 < size
      modifies this
      ensures (Contents(), r) == Fetch(old(Contents()), size)
    {
      if closing {
        return Failure(Closed);
      }
      if unacknowledged.Some? {
        return Success(unacknowledged.value);
      }
      var envelopes := TakeEnvelopes(size);
      if envelopes == [] {
        serial := serial + 1;
        return Success(Batch(serial - 1, [], [], []));
      }
      var index, events, connectivity, rejected := SortEnvelopes(envelopes);
      TailOfTaken(old(deferred + queue), |envelopes|, index);
      TailOfTaken(old(deferred + queue), |envelopes|, 1);
      if index < |envelopes| && index == 0 {
        deferred := envelopes[1..] + deferred;
        return Failure(Unparsable(envelopes[0].error));
      }
      deferred := envelopes[index..] + deferred;
      var batch := Batch(serial, events, connectivity, rejected);
      unacknowledged, serial := Some(batch), serial + 1;
      return Success(batch);
    }

    /** Sorts envelopes by kind up to the first parse failure. */
    static method SortEnvelopes(envelopes: seq<Envelope>)
      returns (index: nat, events: seq<nat>, connectivity: seq<nat>, rejected: seq<nat>)
      ensures index == BeforeFailure(envelopes)
      ensures events == Of(envelopes[..index], TokenKind) && connectivity == Of(envelopes[..index], ConnectivityKind)
      ensures rejected == Of(envelopes[..index], RejectedKind)
    {
      events, connectivity, rejected := [], [], [];
      index := 0;
      while index < |envelopes|
        invariant index <= BeforeFailure(envelopes)
        invariant events == Of(envelopes[..index], TokenKind)
        invariant connectivity == Of(envelopes[..index], ConnectivityKind)
        invariant rejected == Of(envelopes[..index], RejectedKind)
      {
        var envelope := envelopes[index];
        if envelope.ParseFailure? {
          break;
        }
        assert envelopes[..index + 1][..index] == envelopes[..index];
        match envelope {
          case Token(event) => events := events + [event];
          case Rejected(event) => rejected := rejected + [event];
          case Connectivity(event) => connectivity := connectivity + [event];
        }
        index := index + 1;
      }
    }

    method AcknowledgeBatch(batch: Batch) returns (r: Result<(), AckError>)
      modifies this`unacknowledged
      ensures match Acknowledge(old(Contents()), batch)
              case Success(s) => r.Success? && Contents() == s
              case Failure(e) => r == Failure(e) && Contents() == old(Contents())
    {
      if unacknowledged.None? {
        return Success(());
      }
      if unacknowledged.value != batch {
        return Failure(DifferentBatch);
      }
      unacknowledged := None;
      return Success(());
    }
  }
}
