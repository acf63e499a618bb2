/** Copies of one archive that interleave request by request: a remote store is asked whether an object
    is there, takes an unconditional upload, and is read back, and anything can happen in between. */
module ArchiveCopyRaces {
  import opened ArchiveCopy
  import opened Collections

  // ---------------------------------------------------------------- steps

  /** What a copy does next for the object it is at. */
  datatype Phase = Looking | Sending | Comparing

  /** A copy at work: how many objects it has confirmed, and its next request. */
  datatype Copier = Copier(done: nat, phase: Phase)

  datatype Race = Race(objects: Objects, copiers: map<nat, Copier>)

  /** A copy starts over or stops, or its next request is served; an upload keeps whatever bytes the
      store received. Another archive's upload is to a key that is not of this archive. */
  datatype Request =
    | Begins(copier: nat)
    | Stops(copier: nat)
    | Looks(copier: nat)
    | Sends(copier: nat, stored: Content)
    | Compares(copier: nat)
    | SendsForeign(key: Key, stored: Content)

  predicate At(s: Race, items: seq<Item>, copier: nat, phase: Phase) {
    copier in s.copiers && s.copiers[copier].phase == phase && s.copiers[copier].done < |items|
  }

  predicate IsKeyOf(items: seq<Item>, key: Key) {
    exists i :: 0 <= i < |items| && items[i].key == key
  }

  function Serve(s: Race, items: seq<Item>, e: Request): Race {
    match e
    case Begins(c) => s.(copiers := s.copiers[c := Copier(0, Looking)])
    case Stops(c) => s.(copiers := s.copiers - {c})
    case Looks(c) =>
      if !At(s, items, c, Looking) then s
      else
        var done := s.copiers[c].done;
        s.(copiers := s.copiers[c := Copier(done, if items[done].key in s.objects then Comparing else Sending)])
    case Sends(c, stored) =>
      if !At(s, items, c, Sending) then s
      else
        var done := s.copiers[c].done;
        Race(s.objects[items[done].key := stored], s.copiers[c := Copier(done, Comparing)])
    case Compares(c) =>
      if !At(s, items, c, Comparing) then s
      else
        var done := s.copiers[c].done;
        if Holds(s.objects, items[done]) then s.(copiers := s.copiers[c := Copier(done + 1, Looking)])
        else s.(copiers := s.copiers - {c})
    case SendsForeign(key, stored) =>
      if IsKeyOf(items, key) then s else s.(objects := s.objects[key := stored])
  }

  function ServeAll(s: Race, items: seq<Item>, requests: seq<Request>): Race {
    if requests == [] then s
    else Serve(ServeAll(s, items, requests[..|requests| - 1]), items, requests[|requests| - 1])
  }

  // ---------------------------------------------------------------- safety

  /** A visible manifest is complete, and what a copy has confirmed is in place. */
  predicate Safe(s: Race, items: seq<Item>)
    requires items != []
  {
    Complete(s.objects, items) && forall c :: c in s.copiers ==> HoldsFirst(s.objects, items, s.copiers[c].done)
  }

  predicate ConfirmedBy(c: Copier, items: seq<Item>, key: Key) {
    exists i :: 0 <= i < c.done && i < |items| && items[i].key == key
  }

  /** Somebody relies on the object: the manifest over it is visible, or a copy has confirmed it. */
  predicate Relied(s: Race, items: seq<Item>, key: Key)
    requires items != []
  {
    || (items[|items| - 1].key in s.objects && key != items[|items| - 1].key)
    || (exists c :: c in s.copiers && ConfirmedBy(s.copiers[c], items, key))
  }

  /** The request uploads damaged bytes over an object that somebody relies on. */
  predicate Damages(s: Race, items: seq<Item>, e: Request)
    requires items != []
  {
    && e.Sends? && At(s, items, e.copier, Sending)
    && e.stored != items[s.copiers[e.copier].done].content
    && Relied(s, items, items[s.copiers[e.copier].done].key)
  }

  /** The archive: its manifest last, and one content per key. */
  predicate Archive(items: seq<Item>) {
    ManifestLast(items) && KeysAgree(items)
  }

  lemma UploadKeepsFirst(before: Objects, items: seq<Item>, n: nat, item: Item, stored: Content)
    requires HoldsFirst(before, items, n) && item in items && KeysAgree(items)
    requires stored == item.content || !ConfirmedBy(Copier(n, Looking), items, item.key)
    ensures HoldsFirst(before[item.key := stored], items, n)
  {
    forall i | 0 <= i < n
      ensures Holds(before[item.key := stored], items[i])
    {
      var j :| 0 <= j < |items| && items[j] == item;
      assert items[i].key == item.key ==> items[i] == item;
    }
  }

  lemma UploadKeepsComplete(s: Race, items: seq<Item>, k: nat, stored: Content)
    requires Archive(items) && k < |items| && Complete(s.objects, items)
    requires k == |items| - 1 ==> HoldsFirst(s.objects, items, k)
    requires stored == items[k].content || !Relied(s, items, items[k].key)
    ensures Complete(s.objects[items[k].key := stored], items)
  {
    var m := |items| - 1;
    var after := s.objects[items[k].key := stored];
    if items[m].key in after {
      forall i | 0 <= i < m
        ensures Holds(after, items[i])
      {
        assert items[i].key == items[k].key ==> items[i] == items[k];
      }
    }
  }

  lemma HarmlessUploadIsSafe(s: Race, items: seq<Item>, c: nat, stored: Content)
    requires Archive(items) && Safe(s, items) && At(s, items, c, Sending) && !Damages(s, items, Sends(c, stored))
    ensures Safe(Serve(s, items, Sends(c, stored)), items)
  {
    var k := s.copiers[c].done;
    UploadKeepsComplete(s, items, k, stored);
    var after := Serve(s, items, Sends(c, stored));
    forall w | w in after.copiers
      ensures HoldsFirst(after.objects, items, after.copiers[w].done)
    {
      var n := s.copiers[w].done;
      assert ConfirmedBy(Copier(n, Looking), items, items[k].key) ==> ConfirmedBy(s.copiers[w], items, items[k].key);
      UploadKeepsFirst(s.objects, items, n, items[k], stored);
    }
  }

  lemma DamagingUploadIsUnsafe(s: Race, items: seq<Item>, c: nat, stored: Content)
    requires Archive(items) && Safe(s, items) && Damages(s, items, Sends(c, stored))
    ensures !Safe(Serve(s, items, Sends(c, stored)), items)
  {
    var k, m := s.copiers[c].done, |items| - 1;
    var after := Serve(s, items, Sends(c, stored));
    assert !Holds(after.objects, items[k]);
    if items[m].key in s.objects && items[k].key != items[m].key {
      assert items[m].key in after.objects;
    } else {
      var w :| w in s.copiers && ConfirmedBy(s.copiers[w], items, items[k].key);
      var i :| 0 <= i < s.copiers[w].done && i < |items| && items[i].key == items[k].key;
      assert items[i] == items[k];
      assert after.copiers[w].done == s.copiers[w].done;
    }
  }

  lemma OtherRequestIsSafe(s: Race, items: seq<Item>, e: Request)
    requires Archive(items) && Safe(s, items) && !e.Sends? && !e.SendsForeign?
    ensures Safe(Serve(s, items, e), items)
  {
    assert Serve(s, items, e).objects == s.objects;
  }

  lemma ForeignUploadIsSafe(s: Race, items: seq<Item>, key: Key, stored: Content)
    requires Archive(items) && Safe(s, items)
    ensures Safe(Serve(s, items, SendsForeign(key, stored)), items)
  {
    if !IsKeyOf(items, key) {
      forall i | 0 <= i < |items|
        ensures items[i].key != key
      {
      }
    }
  }

  /** A request keeps the race safe if and only if it does not upload damaged bytes over an object that
      somebody relies on. */
  lemma RequestIsSafeExactly(s: Race, items: seq<Item>, e: Request)
    requires Archive(items) && Safe(s, items)
    ensures Safe(Serve(s, items, e), items) <==> !Damages(s, items, e)
  {
    match e
    case Sends(c, stored) =>
      if Damages(s, items, e) {
        DamagingUploadIsUnsafe(s, items, c, stored);
      } else if At(s, items, c, Sending) {
        HarmlessUploadIsSafe(s, items, c, stored);
      }
    case SendsForeign(key, stored) => ForeignUploadIsSafe(s, items, key, stored);
    case _ => OtherRequestIsSafe(s, items, e);
  }

  // ---------------------------------------------------------------- whole races

  function Begin(objects: Objects): Race { Race(objects, map[]) }

  function AfterFirst(objects: Objects, items: seq<Item>, requests: seq<Request>, n: nat): Race
    requires n <= |requests|
  {
    ServeAll(Begin(objects), items, requests[..n])
  }

  predicate AlwaysSafe(objects: Objects, items: seq<Item>, requests: seq<Request>, n: nat)
    requires items != [] && n <= |requests|
  {
    forall k :: 0 <= k <= n ==> Safe(AfterFirst(objects, items, requests, k), items)
  }

  predicate NoDamage(objects: Objects, items: seq<Item>, requests: seq<Request>, n: nat)
    requires items != [] && n <= |requests|
  {
    forall k :: 0 <= k < n ==> !Damages(AfterFirst(objects, items, requests, k), items, requests[k])
  }

  lemma NextIs(objects: Objects, items: seq<Item>, requests: seq<Request>, n: nat)
    requires n < |requests|
    ensures AfterFirst(objects, items, requests, n + 1)
        == Serve(AfterFirst(objects, items, requests, n), items, requests[n])
  {
    assert requests[..n + 1][..n] == requests[..n];
  }

  lemma OneMoreRequest(objects: Objects, items: seq<Item>, requests: seq<Request>, n: nat)
    requires items != [] && n < |requests|
    ensures AlwaysSafe(objects, items, requests, n + 1)
            <==> AlwaysSafe(objects, items, requests, n) && Safe(AfterFirst(objects, items, requests, n + 1), items)
    ensures NoDamage(objects, items, requests, n + 1)
            <==> (&& NoDamage(objects, items, requests, n)
                  && !Damages(AfterFirst(objects, items, requests, n), items, requests[n]))
    ensures AlwaysSafe(objects, items, requests, n) ==> Safe(AfterFirst(objects, items, requests, n), items)
  {
  }

  /** From a store without the manifest, a race is safe at every moment if and only if no upload puts
      damaged bytes over an object that somebody relies on. */
  lemma {:induction false} RaceIsSafeExactly(objects: Objects, items: seq<Item>, requests: seq<Request>, n: nat)
    requires Archive(items) && items[|items| - 1].key !in objects && n <= |requests|
    ensures AlwaysSafe(objects, items, requests, n) <==> NoDamage(objects, items, requests, n)
  {
    if n == 0 {
      assert AfterFirst(objects, items, requests, 0) == Begin(objects);
    } else {
      RaceIsSafeExactly(objects, items, requests, n - 1);
      SafeOneMore(objects, items, requests, n - 1);
    }
  }

  lemma SafeOneMore(objects: Objects, items: seq<Item>, requests: seq<Request>, n: nat)
    requires Archive(items) && n < |requests|
    requires AlwaysSafe(objects, items, requests, n) <==> NoDamage(objects, items, requests, n)
    ensures AlwaysSafe(objects, items, requests, n + 1) <==> NoDamage(objects, items, requests, n + 1)
  {
    OneMoreRequest(objects, items, requests, n);
    NextIs(objects, items, requests, n);
    if AlwaysSafe(objects, items, requests, n) {
      RequestIsSafeExactly(AfterFirst(objects, items, requests, n), items, requests[n]);
    }
  }

  /** Every upload of the race keeps the bytes it was sent. */
  predicate Faithful(s: Race, items: seq<Item>, e: Request) {
    e.Sends? && At(s, items, e.copier, Sending) ==> e.stored == items[s.copiers[e.copier].done].content
  }

  /** So a store that keeps the bytes it is sent is safe in every race ... */
  lemma FaithfulStoreIsSafe(objects: Objects, items: seq<Item>, requests: seq<Request>)
    requires Archive(items) && items[|items| - 1].key !in objects
    requires forall k :: 0 <= k < |requests| ==> Faithful(AfterFirst(objects, items, requests, k), items, requests[k])
    ensures AlwaysSafe(objects, items, requests, |requests|)
  {
    forall k | 0 <= k < |requests|
      ensures !Damages(AfterFirst(objects, items, requests, k), items, requests[k])
    {
      assert Faithful(AfterFirst(objects, items, requests, k), items, requests[k]);
    }
    RaceIsSafeExactly(objects, items, requests, |requests|);
  }

  /** A copy about to upload found the key absent; since then only the canonical object can have come. */
  ghost predicate SendsAgree(s: Race, items: seq<Item>) {
    forall c :: At(s, items, c, Sending) ==>
      items[s.copiers[c].done].key in s.objects ==> Holds(s.objects, items[s.copiers[c].done])
  }

  /** No object of the archive is replaced or removed. */
  predicate KeepsObjects(before: Objects, after: Objects, items: seq<Item>) {
    forall i :: 0 <= i < |items| && items[i].key in before
        ==> items[i].key in after && after[items[i].key] == before[items[i].key]
  }

  lemma FaithfulRequestKeeps(s: Race, items: seq<Item>, e: Request)
    requires KeysAgree(items) && SendsAgree(s, items) && Faithful(s, items, e)
    ensures SendsAgree(Serve(s, items, e), items)
    ensures KeepsObjects(s.objects, Serve(s, items, e).objects, items)
  {
    var after := Serve(s, items, e);
    if e.Sends? && At(s, items, e.copier, Sending) {
      var item := items[s.copiers[e.copier].done];
      forall i | 0 <= i < |items| && items[i].key == item.key
        ensures items[i] == item
      {
      }
      forall c | At(after, items, c, Sending)
        ensures items[after.copiers[c].done].key in after.objects ==> Holds(after.objects, items[after.copiers[c].done])
      {
        assert At(s, items, c, Sending);
      }
    } else {
      forall c | At(after, items, c, Sending)
        ensures items[after.copiers[c].done].key in after.objects ==> Holds(after.objects, items[after.copiers[c].done])
      {
        assert At(s, items, c, Sending) || (e == Looks(c) && items[after.copiers[c].done].key !in s.objects);
        assert e.SendsForeign? ==> !IsKeyOf(items, e.key) || after == s;
      }
    }
  }

  /** ... and replaces no object of the archive. */
  lemma {:induction false} FaithfulStoreReplacesNothing(objects: Objects, items: seq<Item>, requests: seq<Request>,
                                                        n: nat)
    requires KeysAgree(items) && n <= |requests|
    requires forall k :: 0 <= k < |requests| ==> Faithful(AfterFirst(objects, items, requests, k), items, requests[k])
    ensures SendsAgree(AfterFirst(objects, items, requests, n), items)
    ensures KeepsObjects(objects, AfterFirst(objects, items, requests, n).objects, items)
  {
    if n == 0 {
      assert AfterFirst(objects, items, requests, 0) == Begin(objects);
    } else {
      FaithfulStoreReplacesNothing(objects, items, requests, n - 1);
      NextIs(objects, items, requests, n - 1);
      assert Faithful(AfterFirst(objects, items, requests, n - 1), items, requests[n - 1]);
      FaithfulRequestKeeps(AfterFirst(objects, items, requests, n - 1), items, requests[n - 1]);
    }
  }

  // ---------------------------------------------------------------- a race that is not safe

  const DATA := Item("data", 1)
  const MANIFEST := Item("manifest.json", 2)

  /** Two copies see the object as absent; one uploads it and goes on to the manifest, then the upload
      of the other arrives damaged. */
  const LATE_DAMAGE: seq<Request> :=
    [Begins(0), Begins(1), Looks(0), Looks(1), Sends(0, 1), Compares(0), Looks(0), Sends(0, 2), Sends(1, 9)]

  /** ... and one that may damage an upload is not. */
  lemma LateDamageIsUnsafe()
    ensures Archive([DATA, MANIFEST])
    ensures !Safe(AfterFirst(map[], [DATA, MANIFEST], LATE_DAMAGE, 9), [DATA, MANIFEST])
  {
    var items := [DATA, MANIFEST];
    var both := Race(map[], map[0 := Copier(0, Sending), 1 := Copier(0, Sending)]);
    var ahead := Race(map["data" := 1, "manifest.json" := 2], map[0 := Copier(1, Comparing), 1 := Copier(0, Sending)]);
    FirstFour(items, both);
    NextFour(items, both, ahead);
    NextIs(map[], items, LATE_DAMAGE, 8);
    assert Serve(ahead, items, Sends(1, 9)).objects == map["data" := 9, "manifest.json" := 2];
  }

  lemma FirstFour(items: seq<Item>, both: Race)
    requires items == [DATA, MANIFEST] && both == Race(map[], map[0 := Copier(0, Sending), 1 := Copier(0, Sending)])
    ensures AfterFirst(map[], items, LATE_DAMAGE, 4) == both
  {
    assert AfterFirst(map[], items, LATE_DAMAGE, 0) == Begin(map[]);
    NextIs(map[], items, LATE_DAMAGE, 0);
    NextIs(map[], items, LATE_DAMAGE, 1);
    NextIs(map[], items, LATE_DAMAGE, 2);
    NextIs(map[], items, LATE_DAMAGE, 3);
  }

  lemma NextFour(items: seq<Item>, both: Race, ahead: Race)
    requires items == [DATA, MANIFEST] && both == Race(map[], map[0 := Copier(0, Sending), 1 := Copier(0, Sending)])
    requires ahead == Race(map["data" := 1, "manifest.json" := 2], map[0 := Copier(1, Comparing), 1 := Copier(0,
        Sending)])
    requires AfterFirst(map[], items, LATE_DAMAGE, 4) == both
    ensures AfterFirst(map[], items, LATE_DAMAGE, 8) == ahead
  {
    NextIs(map[], items, LATE_DAMAGE, 4);
    NextIs(map[], items, LATE_DAMAGE, 5);
    NextIs(map[], items, LATE_DAMAGE, 6);
    NextIs(map[], items, LATE_DAMAGE, 7);
  }
}
