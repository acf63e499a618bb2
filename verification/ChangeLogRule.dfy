/** What one record does to the change-only log, in the columns of the record and the stored rows. */
module ChangeLogRule {
  import opened Wrappers
  import opened ChangeLog

  /** One row for each identity. */
  predicate UniqueIds<C(==)>(log: seq<Fact<C>>) {
    forall i, j :: 0 <= i < j < |log| ==> log[i].id != log[j].id
  }

  /** No row was received later, nor at the same time under a greater id. */
  predicate IsNewest<C(==)>(log: seq<Fact<C>>, f: Fact<C>) {
    && f in log
    && forall x <- log :: x.receivedAt < f.receivedAt || (x.receivedAt == f.receivedAt && x.id <= f.id)
  }

  lemma {:induction false} LatestIsNewest<C>(log: seq<Fact<C>>)
    ensures Latest(log).None? <==> log == []
    ensures Latest(log).Some? ==> IsNewest(log, Latest(log).value)
  {
    if log != [] {
      LatestIsNewest(log[..|log| - 1]);
    }
  }

  /** The newest row is the only one of its kind. */
  lemma NewestIsLatest<C>(log: seq<Fact<C>>, f: Fact<C>)
    requires UniqueIds(log) && IsNewest(log, f)
    ensures Latest(log) == Some(f)
  {
    LatestIsNewest(log);
    var g := Latest(log).value;
    assert f in log && g in log;
    assert f.id == g.id;
  }

  lemma {:induction false} StoredHasTheId<C>(log: seq<Fact<C>>, id: nat)
    ensures match Stored(log, id)
            case None => forall x <- log :: x.id != id
            case Some(f) => f in log && f.id == id
  {
    if log != [] {
      StoredHasTheId(log[..|log| - 1], id);
    }
  }

  /** The newest row holds the content already. */
  predicate Repeats<C(==)>(log: seq<Fact<C>>, content: C) {
    exists f <- log :: IsNewest(log, f) && f.content == content
  }

  /** An empty or repeated record is dropped; a changed one is stored once under its identity, found again
      when it comes back, and refused when its identity holds other content. */
  lemma RecordExactly<C>(log: seq<Fact<C>>, r: Received<C>)
    requires UniqueIds(log)
    ensures var (after, result) := Record(log, r);
      if r.content.None? || Repeats(log, r.content.value) then after == log && result == Success(None)
      else if forall x <- log :: x.id != r.id then
        var fact := Fact(r.id, r.receivedAt, r.content.value);
        after == log + [fact] && result == Success(Some(fact))
      else
        && after == log
        && exists x <- log :: x.id == r.id
             && result == if x.content == r.content.value then Success(Some(x)) else Failure(IdentityConflict)
  {
    if r.content.Some? {
      RepeatsExactly(log, r.content.value);
      StoredHasTheId(log, r.id);
    }
  }

  lemma RepeatsExactly<C>(log: seq<Fact<C>>, content: C)
    requires UniqueIds(log)
    ensures Repeats(log, content) <==> Answer(Latest(log)) == Some(content)
  {
    LatestIsNewest(log);
    if f :| f in log && IsNewest(log, f) && f.content == content {
      NewestIsLatest(log, f);
    }
  }

  /** Every run stores one row for each identity. */
  lemma {:induction false} RunKeepsIdsUnique<C>(records: seq<Received<C>>)
    ensures UniqueIds(Run(records))
  {
    if records != [] {
      var n := |records| - 1;
      RunKeepsIdsUnique(records[..n]);
      StoredHasTheId(Run(records[..n]), records[n].id);
    }
  }
}
