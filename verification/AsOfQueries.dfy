/** Order-independent queries over tuples of facts: visibility filters, sorts and latest facts,
    by a key whose last component is the fact's id. */
module AsOfQueries {
  import opened Collections
  import opened Wrappers
  import opened Sorting

  /** A sort key: one or two times, then the id in text order. */
  datatype Key = Key(first: int, second: int, id: nat)

  predicate KeyLe(a: Key, b: Key) {
    || a.first < b.first
    || (a.first == b.first && a.second < b.second)
    || (a.first == b.first && a.second == b.second && a.id <= b.id)
  }

  function Filter<T>(items: seq<T>, keep: T -> bool): seq<T> {
    if items == [] then []
    else
      var last := items[|items| - 1];
      Filter(items[..|items| - 1], keep) + if keep(last) then [last] else []
  }

  lemma {:induction false} FilterCounts<T>(items: seq<T>, keep: T -> bool, x: T)
    ensures multiset(Filter(items, keep))[x] == if keep(x) then multiset(items)[x] else 0
  {
    if items != [] {
      var n := |items| - 1;
      FilterCounts(items[..n], keep, x);
      assert items == items[..n] + [items[n]];
    }
  }

  /** The library `max(..., key=...)`: the first fact with the greatest key. */
  function MaxBy<T>(items: seq<T>, key: T -> Key): T
    requires items != []
  {
    var last := items[|items| - 1];
    if |items| == 1 then last
    else
      var best := MaxBy(items[..|items| - 1], key);
      if KeyLe(key(last), key(best)) then best else last
  }

  lemma {:induction false} MaxByIsGreatest<T>(items: seq<T>, key: T -> Key)
    requires items != []
    ensures MaxBy(items, key) in items
    ensures forall i :: 0 <= i < |items| ==> KeyLe(key(items[i]), key(MaxBy(items, key)))
  {
    if 1 < |items| {
      MaxByIsGreatest(items[..|items| - 1], key);
    }
  }

  /** The latest visible fact. */
  function Latest<T>(items: seq<T>, visible: T -> bool, key: T -> Key): Option<T> {
    var seen := Filter(items, visible);
    if seen == [] then None else Some(MaxBy(seen, key))
  }

  predicate ByKey<T>(key: T -> Key, a: T, b: T) { KeyLe(key(a), key(b)) }

  function SortByKey<T>(items: seq<T>, key: T -> Key): seq<T> {
    Sort((a: T, b: T) => ByKey(key, a, b), items)
  }

  /** Facts with equal keys are the same fact, as unique ids imply. */
  predicate Identified<T(==)>(items: seq<T>, key: T -> Key) {
    forall i, j :: 0 <= i < |items| && 0 <= j < |items| && key(items[i]) == key(items[j]) ==> items[i] == items[j]
  }

  lemma ByKeyIsPreorder<T(!new)>(key: T -> Key)
    ensures TotalPreorder((a: T, b: T) => ByKey(key, a, b))
  {
  }

  ghost predicate Ordered<T>(a: seq<T>, key: T -> Key) {
    forall i, j :: 0 <= i < j < |a| ==> KeyLe(key(a[i]), key(a[j]))
  }

  /** The library sort gives an ordered permutation. */
  lemma SortByKeySorts<T(!new)>(items: seq<T>, key: T -> Key)
    ensures Ordered(SortByKey(items, key), key)
    ensures multiset(SortByKey(items, key)) == multiset(items)
  {
    var le := (a: T, b: T) => ByKey(key, a, b);
    ByKeyIsPreorder(key);
    SortSorts(le, items);
    var sorted := SortByKey(items, key);
    forall i, j | 0 <= i < j < |sorted|
      ensures KeyLe(key(sorted[i]), key(sorted[j]))
    {
      assert le(sorted[i], sorted[j]);
    }
  }

  /** The last fact of an ordered list has the greatest key. */
  lemma LastIsGreatest<T>(a: seq<T>, key: T -> Key, x: T)
    requires a != [] && Ordered(a, key) && x in a
    ensures KeyLe(key(x), key(a[|a| - 1]))
  {
  }

  lemma WithoutLast<T>(a: seq<T>)
    requires a != []
    ensures multiset(a[..|a| - 1]) == multiset(a) - multiset{a[|a| - 1]}
  {
    assert a == a[..|a| - 1] + [a[|a| - 1]];
  }

  /** Two ordered lists with the same members and no ambiguous keys end with the same fact. */
  lemma SameLast<T>(a: seq<T>, b: seq<T>, key: T -> Key)
    requires a != [] && b != [] && multiset(a) == multiset(b) && Identified(a, key)
    requires Ordered(a, key) && Ordered(b, key)
    ensures a[|a| - 1] == b[|b| - 1]
  {
    SameMembers(a, b);
    var x, y := a[|a| - 1], b[|b| - 1];
    LastIsGreatest(a, key, y);
    LastIsGreatest(b, key, x);
    var j :| 0 <= j < |a| && a[j] == y;
    assert key(a[j]) == key(a[|a| - 1]);
  }

  lemma Prefix<T>(a: seq<T>, key: T -> Key, n: nat)
    requires n <= |a| && Ordered(a, key)
    ensures Ordered(a[..n], key) && (Identified(a, key) ==> Identified(a[..n], key))
  {
  }

  lemma SamePrefix<T>(a: seq<T>, b: seq<T>)
    requires a != [] && b != [] && multiset(a) == multiset(b) && a[|a| - 1] == b[|b| - 1]
    ensures multiset(a[..|a| - 1]) == multiset(b[..|b| - 1])
  {
    WithoutLast(a);
    WithoutLast(b);
  }

  lemma Rejoin<T>(a: seq<T>, b: seq<T>)
    requires a != [] && b != [] && a[..|a| - 1] == b[..|b| - 1] && a[|a| - 1] == b[|b| - 1]
    ensures a == b
  {
    assert a == a[..|a| - 1] + [a[|a| - 1]] && b == b[..|b| - 1] + [b[|b| - 1]];
  }

  /** ... and are equal. */
  lemma {:induction false} SortedIsUnique<T>(a: seq<T>, b: seq<T>, key: T -> Key)
    requires multiset(a) == multiset(b) && Identified(a, key)
    requires Ordered(a, key) && Ordered(b, key)
    ensures a == b
  {
    SameMembers(a, b);
    if a != [] {
      SameLast(a, b, key);
      SamePrefix(a, b);
      Prefix(a, key, |a| - 1);
      Prefix(b, key, |b| - 1);
      SortedIsUnique(a[..|a| - 1], b[..|b| - 1], key);
      Rejoin(a, b);
    }
  }

  /** The two tuples hold the same visible facts, in whatever order. */
  predicate SameVisible<T(==)>(a: seq<T>, b: seq<T>, visible: T -> bool) {
    multiset(Filter(a, visible)) == multiset(Filter(b, visible))
  }

  lemma {:induction false} FilterConcat<T>(a: seq<T>, b: seq<T>, keep: T -> bool)
    ensures Filter(a + b, keep) == Filter(a, keep) + Filter(b, keep)
  {
    if b == [] {
      assert a + b == a;
    } else {
      var n := |b| - 1;
      FilterConcat(a, b[..n], keep);
      SplitLast(a, b);
    }
  }

  function OneIf<T>(x: T, keep: T -> bool): seq<T> {
    if keep(x) then [x] else []
  }

  lemma TakeOut<T>(p: seq<T>, x: T, q: seq<T>, keep: T -> bool)
    ensures multiset(Filter(p + [x] + q, keep)) == multiset(Filter(p + q, keep)) + multiset(OneIf(x, keep))
  {
    FilterConcat(p + [x], q, keep);
    FilterConcat(p, [x], keep);
    FilterConcat(p, q, keep);
    assert Filter([x], keep) == OneIf(x, keep) by {
      assert [x][..0] == [];
    }
  }

  lemma {:induction false} SameFiltered<T>(a: seq<T>, b: seq<T>, keep: T -> bool)
    requires multiset(a) == multiset(b)
    ensures multiset(Filter(a, keep)) == multiset(Filter(b, keep))
  {
    SameMembers(a, b);
    if a != [] {
      var n := |a| - 1;
      assert a[n] in b;
      var i :| 0 <= i < |b| && b[i] == a[n];
      var p, q := b[..i], b[i + 1..];
      SplitAt(b, i);
      WithoutLast(a);
      SameFiltered(a[..n], p + q, keep);
      TakeOut(p, a[n], q, keep);
      FilterLast(a, keep);
    }
  }

  lemma SplitAt<T>(b: seq<T>, i: nat)
    requires i < |b|
    ensures b == b[..i] + [b[i]] + b[i + 1..]
    ensures multiset(b[..i] + b[i + 1..]) == multiset(b) - multiset{b[i]}
  {
    assert b == b[..i] + [b[i]] + b[i + 1..];
  }

  lemma FilterLast<T>(a: seq<T>, keep: T -> bool)
    requires a != []
    ensures multiset(Filter(a, keep)) == multiset(Filter(a[..|a| - 1], keep)) + multiset(OneIf(a[|a| - 1], keep))
  {
  }

  lemma SameMembersIdentified<T>(a: seq<T>, b: seq<T>, key: T -> Key)
    requires multiset(a) == multiset(b) && Identified(a, key)
    ensures Identified(b, key)
  {
    SameMembers(a, b);
    forall i, j | 0 <= i < |b| && 0 <= j < |b| && key(b[i]) == key(b[j])
      ensures b[i] == b[j]
    {
      assert b[i] in a && b[j] in a;
    }
  }

  lemma SameSorted<T(!new)>(a: seq<T>, b: seq<T>, key: T -> Key)
    requires multiset(a) == multiset(b) && Identified(a, key)
    ensures SortByKey(a, key) == SortByKey(b, key)
  {
    SortByKeySorts(a, key);
    SortByKeySorts(b, key);
    SameMembersIdentified(a, SortByKey(a, key), key);
    SortedIsUnique(SortByKey(a, key), SortByKey(b, key), key);
  }

  lemma SameMax<T>(a: seq<T>, b: seq<T>, key: T -> Key)
    requires multiset(a) == multiset(b) && Identified(a, key) && a != []
    ensures b != [] && MaxBy(a, key) == MaxBy(b, key)
  {
    SameMembers(a, b);
    MaxByIsGreatest(a, key);
    MaxByIsGreatest(b, key);
    var x, y := MaxBy(a, key), MaxBy(b, key);
    assert x in b && y in a;
    var i :| 0 <= i < |b| && b[i] == x;
    var j :| 0 <= j < |a| && a[j] == y;
    assert KeyLe(key(x), key(y)) && KeyLe(key(y), key(x));
  }

  /** The latest visible fact depends only on the visible facts. */
  lemma SameLatest<T>(a: seq<T>, b: seq<T>, visible: T -> bool, key: T -> Key)
    requires SameVisible(a, b, visible) && Identified(Filter(a, visible), key)
    ensures Latest(a, visible, key) == Latest(b, visible, key)
  {
    SameMembers(Filter(a, visible), Filter(b, visible));
    if Filter(a, visible) != [] {
      SameMax(Filter(a, visible), Filter(b, visible), key);
    }
  }

  lemma FilterMembers<T>(items: seq<T>, keep: T -> bool, x: T)
    ensures x in Filter(items, keep) <==> x in items && keep(x)
  {
    FilterCounts(items, keep, x);
    assert x in Filter(items, keep) <==> x in multiset(Filter(items, keep));
    assert x in items <==> x in multiset(items);
  }

  /** The latest fact is visible, and no visible fact is later. */
  lemma LatestIsVisible<T>(items: seq<T>, visible: T -> bool, key: T -> Key)
    ensures match Latest(items, visible, key)
            case None => forall i :: 0 <= i < |items| ==> !visible(items[i])
            case Some(f) => && f in items && visible(f)
                            && forall i :: 0 <= i < |items| && visible(items[i]) ==> KeyLe(key(items[i]), key(f))
  {
    var seen := Filter(items, visible);
    forall i | 0 <= i < |items|
      ensures visible(items[i]) <==> items[i] in seen
    {
      FilterMembers(items, visible, items[i]);
    }
    if seen != [] {
      MaxByIsGreatest(seen, key);
      FilterMembers(items, visible, MaxBy(seen, key));
    }
  }
}
