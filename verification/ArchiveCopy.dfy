/** Copying an archive into an object store, manifest last. Content stands for the bytes of an
    object (an injective digest). */
module ArchiveCopy {

  type Key = string
  type Content = nat
  type Objects = map<Key, Content>

  /** One object of the archive: its key and canonical content. */
  datatype Item = Item(key: Key, content: Content)

  /** What can happen to one upload: it succeeds, the process stops before or after the object
      is stored, or the store keeps damaged bytes (only a remote store, whose upload is checked
      after it is stored; the filesystem store checks the staged file first). */
  datatype Fault = NoFault | StopsBefore | StopsAfter | Damaged(stored: Content)

  datatype Attempt = Attempt(faults: seq<Fault>) {
    function At(i: nat): Fault { if i < |faults| then faults[i] else NoFault }
  }

  /** A run without faults. */
  const CLEAN := Attempt([])

  // ---------------------------------------------------------------- specification

  /** The store after one upload, and whether the upload returned normally. An existing object is
      only compared. */
  function Put(objects: Objects, item: Item, fault: Fault): (Objects, bool) {
    if item.key in objects then
      (objects, objects[item.key] == item.content && fault != StopsBefore && fault != StopsAfter)
    else
      match fault
      case NoFault => (objects[item.key := item.content], true)
      case StopsBefore => (objects, false)
      case StopsAfter => (objects[item.key := item.content], false)
      case Damaged(stored) => (objects[item.key := stored], stored == item.content)
  }

  /** One run over the first n items, stopping at the first that does not return normally. */
  function CopyFirst(objects: Objects, items: seq<Item>, n: nat, attempt: Attempt): (Objects, bool)
    requires n <= |items|
  {
    if n == 0 then (objects, true)
    else
      var (before, running) := CopyFirst(objects, items, n - 1, attempt);
      if running then Put(before, items[n - 1], attempt.At(n - 1)) else (before, false)
  }

  /** A step of the store: a run of the copy, or another archive's object. */
  datatype Event = Copied(attempt: Attempt) | Foreign(item: Item, fault: Fault)

  function StepOf(objects: Objects, items: seq<Item>, e: Event): Objects {
    match e
    case Copied(attempt) => CopyFirst(objects, items, |items|, attempt).0
    case Foreign(item, fault) =>
      if exists i :: 0 <= i < |items| && items[i].key == item.key then objects else Put(objects, item, fault).0
  }

  function Run(objects: Objects, items: seq<Item>, events: seq<Event>): Objects {
    if events == [] then objects else StepOf(Run(objects, items, events[..|events| - 1]), items, events[|events| - 1])
  }

  /** The items of one archive: the manifest comes last and its key is its own. */
  predicate ManifestLast(items: seq<Item>) {
    && items != []
    && forall i :: 0 <= i < |items| - 1 ==> items[i].key != items[|items| - 1].key
  }

  predicate Holds(objects: Objects, item: Item) {
    item.key in objects && objects[item.key] == item.content
  }

  predicate KeysAgree(items: seq<Item>) {
    forall i, j :: 0 <= i < j < |items| && items[i].key == items[j].key ==> items[i] == items[j]
  }

  /** A visible manifest has its whole archive behind it. */
  predicate Complete(objects: Objects, items: seq<Item>)
    requires items != []
  {
    items[|items| - 1].key in objects ==> forall i :: 0 <= i < |items| - 1 ==> Holds(objects, items[i])
  }

  /** Nothing stored is replaced or removed. */
  predicate Extends(before: Objects, after: Objects) {
    forall k :: k in before ==> k in after && after[k] == before[k]
  }

  // ---------------------------------------------------------------- one run

  /** One upload replaces nothing, adds at most its own key, and returns normally only with the
      canonical content in place. */
  lemma PutExtends(objects: Objects, item: Item, fault: Fault)
    ensures var (after, ok) := Put(objects, item, fault);
      && Extends(objects, after)
      && (ok ==> Holds(after, item))
      && (forall k :: k in after && k !in objects ==> k == item.key)
  {
  }

  /** An existing object is compared: the upload returns normally exactly when it is canonical already. */
  lemma ExistingIsCompared(objects: Objects, item: Item, fault: Fault)
    requires item.key in objects
    ensures var (after, ok) := Put(objects, item, fault);
      after == objects && (ok <==> Holds(objects, item) && fault != StopsBefore && fault != StopsAfter)
  {
  }

  /** A new object is stored as the store keeps it, and the upload returns normally exactly when the bytes
      read back are canonical. */
  lemma NewIsStored(objects: Objects, item: Item, fault: Fault)
    requires item.key !in objects
    ensures var (after, ok) := Put(objects, item, fault);
      && (item.key in after <==> fault != StopsBefore)
      && (item.key in after ==>
            after[item.key] == if fault.Damaged? then fault.stored else item.content)
      && (ok <==> fault != StopsBefore && fault != StopsAfter && Holds(after, item))
  {
  }

  predicate Named(items: seq<Item>, n: nat, k: Key)
    requires n <= |items|
  {
    exists i :: 0 <= i < n && items[i].key == k
  }

  /** A run replaces nothing, adds only keys of the archive, and whatever prefix it completes holds
      its canonical content. */
  lemma {:induction false} CopyFirstExtends(objects: Objects, items: seq<Item>, n: nat, attempt: Attempt)
    requires n <= |items|
    ensures var (after, ok) := CopyFirst(objects, items, n, attempt);
      && Extends(objects, after)
      && (ok ==> forall i :: 0 <= i < n ==> Holds(after, items[i]))
      && (forall k :: k in after && k !in objects ==> Named(items, n, k))
  {
    if 0 < n {
      CopyFirstExtends(objects, items, n - 1, attempt);
      var (before, running) := CopyFirst(objects, items, n - 1, attempt);
      PutExtends(before, items[n - 1], attempt.At(n - 1));
      var after := CopyFirst(objects, items, n, attempt).0;
      forall k | k in after && k !in objects
        ensures Named(items, n, k)
      {
        NamedBy(items, n - 1, k);
      }
    }
  }

  lemma NamedBy(items: seq<Item>, n: nat, k: Key)
    requires n < |items|
    ensures Named(items, n + 1, k) <==> Named(items, n, k) || items[n].key == k
  {
  }

  /** The manifest becomes visible in a run only after every other object was stored and checked. */
  lemma CopyKeepsComplete(objects: Objects, items: seq<Item>, attempt: Attempt)
    requires ManifestLast(items) && Complete(objects, items)
    ensures Complete(CopyFirst(objects, items, |items|, attempt).0, items)
  {
    var n := |items| - 1;
    CopyFirstExtends(objects, items, n, attempt);
    CopyFirstExtends(objects, items, |items|, attempt);
    var (before, running) := CopyFirst(objects, items, n, attempt);
    var after := CopyFirst(objects, items, |items|, attempt).0;
    assert Extends(before, after);
    if items[n].key in after {
      forall i | 0 <= i < n
        ensures Holds(after, items[i])
      {
        if items[n].key in objects {
          assert Holds(objects, items[i]);
        } else {
          assert running;
          assert Holds(before, items[i]);
        }
      }
    }
  }

  /** Which runs can succeed: a run without faults succeeds exactly when no key of the archive
      already holds different content. */
  lemma {:induction false} CleanRunSucceedsExactly(objects: Objects, items: seq<Item>, n: nat)
    requires n <= |items|
    requires KeysAgree(items)
    ensures CopyFirst(objects, items, n, CLEAN).1 <==>
            forall i :: 0 <= i < n && items[i].key in objects ==> Holds(objects, items[i])
  {
    if 0 < n {
      CleanRunSucceedsExactly(objects, items, n - 1);
      CopyFirstExtends(objects, items, n - 1, CLEAN);
      var (before, running) := CopyFirst(objects, items, n - 1, CLEAN);
      CopyFirstNext(objects, items, n - 1, CLEAN);
      if running {
        CleanUploadSucceedsExactly(objects, before, items, n - 1);
      }
    }
  }

  lemma CopyFirstNext(objects: Objects, items: seq<Item>, n: nat, attempt: Attempt)
    requires n < |items|
    ensures var (before, running) := CopyFirst(objects, items, n, attempt);
      CopyFirst(objects, items, n + 1, attempt)
          == if running then Put(before, items[n], attempt.At(n)) else (before, false)
  {
  }

  /** After a clean run over the first n items, the next upload succeeds exactly when its key did not
      hold different content before the run. */
  lemma CleanUploadSucceedsExactly(objects: Objects, before: Objects, items: seq<Item>, n: nat)
    requires n < |items| && KeysAgree(items) && Extends(objects, before)
    requires forall i :: 0 <= i < n ==> Holds(before, items[i])
    requires forall k :: k in before && k !in objects ==> Named(items, n, k)
    ensures Put(before, items[n], NoFault).1 <==> (items[n].key in objects ==> Holds(objects, items[n]))
  {
    if items[n].key in before && items[n].key !in objects {
      var i :| 0 <= i < n && items[i].key == items[n].key;
      assert Holds(before, items[i]);
    }
  }

  // ---------------------------------------------------------------- all runs

  /** Over any number of interrupted and retried runs, with other archives written in between,
      nothing stored is replaced and a visible manifest has its whole archive behind it. */
  lemma {:induction false} CopyIsCrashSafe(objects: Objects, items: seq<Item>, events: seq<Event>)
    requires ManifestLast(items) && items[|items| - 1].key !in objects
    ensures Complete(Run(objects, items, events), items)
    ensures Extends(objects, Run(objects, items, events))
  {
    if events != [] {
      var n := |events| - 1;
      CopyIsCrashSafe(objects, items, events[..n]);
      var before := Run(objects, items, events[..n]);
      if events[n].Copied? {
        CopyKeepsComplete(before, items, events[n].attempt);
        CopyFirstExtends(before, items, |items|, events[n].attempt);
      } else {
        ForeignKeepsComplete(before, items, events[n]);
      }
    }
  }

  lemma ForeignKeepsComplete(objects: Objects, items: seq<Item>, e: Event)
    requires e.Foreign? && items != [] && Complete(objects, items)
    ensures Complete(StepOf(objects, items, e), items)
    ensures Extends(objects, StepOf(objects, items, e))
  {
  }

  /** Uploads that are checked before they are stored never leave a wrong object behind, so a
      run without faults always finishes the job. */
  predicate NeverDamages(events: seq<Event>) {
    forall i, k :: 0 <= i < |events| && events[i].Copied? && 0 <= k < |events[i].attempt.faults| ==>
      !events[i].attempt.faults[k].Damaged?
  }

  predicate NoConflict(objects: Objects, items: seq<Item>) {
    forall i :: 0 <= i < |items| && items[i].key in objects ==> Holds(objects, items[i])
  }

  lemma {:induction false} UndamagedRunHasNoConflict(objects: Objects, items: seq<Item>, n: nat, attempt: Attempt)
    requires n <= |items| && KeysAgree(items) && NoConflict(objects, items)
    requires forall k :: 0 <= k < |attempt.faults| ==> !attempt.faults[k].Damaged?
    ensures NoConflict(CopyFirst(objects, items, n, attempt).0, items)
  {
    if 0 < n {
      UndamagedRunHasNoConflict(objects, items, n - 1, attempt);
      var before := CopyFirst(objects, items, n - 1, attempt).0;
      var after := CopyFirst(objects, items, n, attempt).0;
      assert !attempt.At(n - 1).Damaged?;
      forall i | 0 <= i < |items| && items[i].key in after
        ensures Holds(after, items[i])
      {
        if items[i].key in before {
          assert Holds(before, items[i]);
        } else {
          assert items[i].key == items[n - 1].key;
        }
      }
    }
  }

  /** After any interruptions of a store that never keeps damaged bytes, one clean run completes
      the copy: every object, the manifest included, is then present and canonical. */
  lemma {:induction false} RetryCompletes(objects: Objects, items: seq<Item>, events: seq<Event>)
    requires KeysAgree(items) && NoConflict(objects, items) && NeverDamages(events)
    ensures NoConflict(Run(objects, items, events), items)
    ensures var (after, ok) := CopyFirst(Run(objects, items, events), items, |items|, CLEAN);
      ok && forall i :: 0 <= i < |items| ==> Holds(after, items[i])
  {
    var n := |events| - 1;
    if events != [] {
      assert forall i :: 0 <= i < n ==> events[..n][i] == events[i];
      RetryCompletes(objects, items, events[..n]);
      var before := Run(objects, items, events[..n]);
      if events[n].Copied? {
        UndamagedRunHasNoConflict(before, items, |items|, events[n].attempt);
      } else {
        ForeignHasNoConflict(before, items, events[n]);
      }
    }
    var now := Run(objects, items, events);
    CleanRunSucceedsExactly(now, items, |items|);
    CopyFirstExtends(now, items, |items|, CLEAN);
  }

  lemma ForeignHasNoConflict(objects: Objects, items: seq<Item>, e: Event)
    requires e.Foreign? && NoConflict(objects, items)
    ensures NoConflict(StepOf(objects, items, e), items)
  {
  }

  // ---------------------------------------------------------------- interleaved copies

  /** Several copies of one archive at work: the store, and how many uploads each has completed in
      its current run. */
  datatype Copiers = Copiers(objects: Objects, done: map<nat, nat>)

  /** A copy starts over, uploads its next object, or another archive uploads one. */
  datatype UploadEvent =
    | Starts(copier: nat)
    | Uploads(copier: nat, fault: Fault)
    | ForeignUpload(item: Item, fault: Fault)

  function UploadStep(s: Copiers, items: seq<Item>, e: UploadEvent): Copiers {
    match e
    case Starts(copier) => s.(done := s.done[copier := 0])
    case Uploads(copier, fault) =>
      if copier in s.done && s.done[copier] < |items| then
        var (after, ok) := Put(s.objects, items[s.done[copier]], fault);
        Copiers(after, if ok then s.done[copier := s.done[copier] + 1] else s.done - {copier})
      else s
    case ForeignUpload(item, fault) => s.(objects := StepOf(s.objects, items, Foreign(item, fault)))
  }

  function UploadRun(s: Copiers, items: seq<Item>, events: seq<UploadEvent>): Copiers {
    if events == [] then s else UploadStep(UploadRun(s, items, events[..|events| - 1]), items, events[|events| - 1])
  }

  predicate HoldsFirst(objects: Objects, items: seq<Item>, n: nat) {
    n <= |items| && forall i :: 0 <= i < n ==> Holds(objects, items[i])
  }

  /** A visible manifest is complete, and what a copy has uploaded is in place. */
  predicate Interleaved(s: Copiers, items: seq<Item>)
    requires items != []
  {
    Complete(s.objects, items) && forall w :: w in s.done ==> HoldsFirst(s.objects, items, s.done[w])
  }

  lemma HoldsFirstRemains(before: Objects, after: Objects, items: seq<Item>, n: nat)
    requires Extends(before, after) && HoldsFirst(before, items, n)
    ensures HoldsFirst(after, items, n)
  {
  }

  /** An upload shows the manifest only to a copy that has uploaded all other objects. */
  lemma UploadKeepsInterleaved(s: Copiers, items: seq<Item>, copier: nat, fault: Fault)
    requires ManifestLast(items) && Interleaved(s, items)
    ensures Interleaved(UploadStep(s, items, Uploads(copier, fault)), items)
    ensures Extends(s.objects, UploadStep(s, items, Uploads(copier, fault)).objects)
  {
    if copier in s.done && s.done[copier] < |items| {
      var n := s.done[copier];
      var after := UploadStep(s, items, Uploads(copier, fault));
      PutExtends(s.objects, items[n], fault);
      forall w | w in after.done
        ensures HoldsFirst(after.objects, items, after.done[w])
      {
        HoldsFirstRemains(s.objects, after.objects, items, s.done[w]);
      }
    }
  }

  /** Copies that interleave upload by upload, each interrupted, damaged and restarted at will: a
      visible manifest has its whole archive behind it, nothing stored is replaced, and a copy that
      finished left every object canonical. */
  lemma {:induction false} InterleavedCopiesAreCrashSafe(objects: Objects, items: seq<Item>, events: seq<UploadEvent>)
    requires ManifestLast(items) && items[|items| - 1].key !in objects
    ensures var s := UploadRun(Copiers(objects, map[]), items, events);
      Interleaved(s, items) && Extends(objects, s.objects)
  {
    if events != [] {
      var n := |events| - 1;
      InterleavedCopiesAreCrashSafe(objects, items, events[..n]);
      var before := UploadRun(Copiers(objects, map[]), items, events[..n]);
      match events[n]
      case Starts(_) =>
      case Uploads(copier, fault) => UploadKeepsInterleaved(before, items, copier, fault);
      case ForeignUpload(item, fault) => ForeignKeepsInterleaved(before, items, item, fault);
    }
  }

  lemma ForeignKeepsInterleaved(s: Copiers, items: seq<Item>, item: Item, fault: Fault)
    requires items != [] && Interleaved(s, items)
    ensures Interleaved(UploadStep(s, items, ForeignUpload(item, fault)), items)
    ensures Extends(s.objects, UploadStep(s, items, ForeignUpload(item, fault)).objects)
  {
    var after := UploadStep(s, items, ForeignUpload(item, fault));
    ForeignKeepsComplete(s.objects, items, Foreign(item, fault));
    forall w | w in after.done
      ensures HoldsFirst(after.objects, items, after.done[w])
    {
      HoldsFirstRemains(s.objects, after.objects, items, s.done[w]);
    }
  }

  // ---------------------------------------------------------------- the store and the loop

  class ObjectStore {
    var objects: Objects

    constructor ()
      ensures objects == map[]
    {
      objects := map[];
    }

    /** Compares an existing object, otherwise stores the new one and reads it back. */
    method PutFile(item: Item, fault: Fault) returns (ok: bool)
      modifies this
      ensures (objects, ok) == Put(old(objects), item, fault)
    {
      if fault == StopsBefore {
        return false;
      }
      if item.key in objects {
        var existing := objects[item.key];
        return existing == item.content && fault != StopsAfter;
      }
      var stored := if fault.Damaged? then fault.stored else item.content;
      objects := objects[item.key := stored];
      if fault == StopsAfter {
        return false;
      }
      return objects[item.key] == item.content;
    }
  }

  /** The objects of an archive in upload order: its data files, the digest of the manifest, the manifest. */
  function Ordered(data: seq<Item>, sidecar: Item, manifest: Item): (items: seq<Item>)
    ensures |items| == |data| + 2 && items[..|data|] == data
    ensures items[|data|] == sidecar && items[|data| + 1] == manifest
  {
    data + [sidecar, manifest]
  }

  /** A manifest with a key of its own comes last. */
  lemma OrderedIsManifestLast(data: seq<Item>, sidecar: Item, manifest: Item)
    ensures ManifestLast(Ordered(data, sidecar, manifest)) <==>
            sidecar.key != manifest.key && forall i :: 0 <= i < |data| ==> data[i].key != manifest.key
  {
    var items := Ordered(data, sidecar, manifest);
    assert forall i :: 0 <= i < |data| ==> items[i] == items[..|data|][i];
    if ManifestLast(items) {
      assert items[|data|].key != manifest.key;
    }
  }

  /** One run of the copy; `verified` says that the copy is recorded. */
  method CopyArchive(store: ObjectStore, data: seq<Item>, sidecar: Item, manifest: Item, attempt: Attempt)
    returns (verified: bool)
    modifies store
    ensures var ordered := Ordered(data, sidecar, manifest);
      && (store.objects, verified) == CopyFirst(old(store.objects), ordered, |ordered|, attempt)
      && (verified ==> forall i :: 0 <= i < |ordered| ==> Holds(store.objects, ordered[i]))
  {
    var ordered := Ordered(data, sidecar, manifest);
    CopyFirstExtends(store.objects, ordered, |ordered|, attempt);
    for index := 0 to |ordered|
      invariant (store.objects, true) == CopyFirst(old(store.objects), ordered, index, attempt)
    {
      var ok := store.PutFile(ordered[index], attempt.At(index));
      if !ok {
        StoppedRun(old(store.objects), ordered, index + 1, |ordered|, attempt);
        return false;
      }
    }
    return true;
  }

  /** A stopped run does nothing more. */
  lemma {:induction false} StoppedRun(objects: Objects, items: seq<Item>, m: nat, n: nat, attempt: Attempt)
    requires m <= n <= |items| && !CopyFirst(objects, items, m, attempt).1
    ensures CopyFirst(objects, items, n, attempt) == CopyFirst(objects, items, m, attempt)
  {
    if m < n {
      StoppedRun(objects, items, m, n - 1, attempt);
    }
  }
}
