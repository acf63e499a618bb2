/** What an exported file records and which rows a range selects, row by row. */
module ArchiveExportRule {
  import opened Collections
  import opened ArchiveExport

  // ---------------------------------------------------------------- one file

  /** The digested text is the canonical text of the rows in order, one line each. */
  lemma ContentIsLines(a: seq<Row>, b: seq<Row>, row: Row)
    ensures StatsOf([]).content == "" && StatsOf([row]).content == row.line + "\n"
    ensures StatsOf(a + b).content == StatsOf(a).content + StatsOf(b).content
  {
    assert [row][..0] == [];
    ContentOfTwo(a, b);
  }

  lemma {:induction false} ContentOfTwo(a: seq<Row>, b: seq<Row>)
    ensures StatsOf(a + b).content == StatsOf(a).content + StatsOf(b).content
  {
    if b == [] {
      assert a + b == a;
    } else {
      ContentOfTwo(a, b[..|b| - 1]);
      SplitLast(a, b);
    }
  }

  /** The rows in which a column is null. */
  function NullAt(rows: seq<Row>, c: nat): set<int> {
    set i | 0 <= i < |rows| && c < |rows[i].nulls| && rows[i].nulls[c]
  }

  lemma NullAtNext(rows: seq<Row>, row: Row, c: nat)
    ensures NullAt(rows + [row], c) == NullAt(rows, c) + if c < |row.nulls| && row.nulls[c] then {|rows|} else {}
    ensures |rows| !in NullAt(rows, c)
  {
    forall i
      ensures i in NullAt(rows, c) <==> i in NullAt(rows + [row], c) && i < |rows|
    {
    }
  }

  /** The null count of a column is the number of rows in which it is null. */
  lemma {:induction false} NullRowsAreCounted(rows: seq<Row>, c: nat)
    ensures NullRows(rows, c) == |NullAt(rows, c)|
  {
    if rows != [] {
      var n := |rows| - 1;
      NullRowsAreCounted(rows[..n], c);
      NullAtNext(rows[..n], rows[n], c);
      assert rows == rows[..n] + [rows[n]];
    }
  }

  /** The entries of an export are numbered in order, one for each file, and describe it. */
  lemma EntriesDescribe(stream: seq<Row>, limit: nat, i: nat)
    requires 0 < limit
    ensures var files := Split(stream, limit);
      && |Entries(files)| == |files|
      && (i < |files| ==> Entries(files)[i].file == i && Describes(Entries(files)[i].stats, files[i]))
  {
    var files := Split(stream, limit);
    if i < |files| {
      StatsDescribe(files[i]);
    }
  }

  // ---------------------------------------------------------------- the rows of a range

  lemma LastCounts<T>(s: seq<T>, x: T)
    requires s != []
    ensures multiset(s)[x] == multiset(s[..|s| - 1])[x] + if s[|s| - 1] == x then 1 else 0
  {
    assert s == s[..|s| - 1] + [s[|s| - 1]];
  }

  /** A range selects the rows from its start up to but not at its end, as often as the table holds them. */
  lemma {:induction false} SelectExactly(table: seq<Row>, r: Range, row: Row)
    ensures multiset(Select(table, r))[row]
         == if row.selectedAt.Some? && r.start <= row.selectedAt.value < r.end then multiset(table)[row] else 0
  {
    if table != [] {
      var n := |table| - 1;
      SelectExactly(table[..n], r, row);
      LastCounts(table, row);
    }
  }

  /** ... in the order of the table. */
  lemma {:induction false} SelectInOrder(a: seq<Row>, b: seq<Row>, r: Range)
    ensures Select(a + b, r) == Select(a, r) + Select(b, r)
  {
    if b == [] {
      assert a + b == a;
    } else {
      SelectInOrder(a, b[..|b| - 1], r);
      SplitLast(a, b);
    }
  }

  // ---------------------------------------------------------------- source counts

  /** A total adds up the rows of the entries of its group and no others. */
  lemma GroupTotalAdds(a: seq<(nat, nat)>, b: seq<(nat, nat)>, g: nat, rows: nat, group: nat)
    ensures GroupTotal([], group) == 0
    ensures GroupTotal([(g, rows)], group) == if g == group then rows else 0
    ensures GroupTotal(a + b, group) == GroupTotal(a, group) + GroupTotal(b, group)
  {
    assert [(g, rows)][..0] == [];
    GroupTotalOfTwo(a, b, group);
  }

  lemma {:induction false} GroupTotalOfTwo(a: seq<(nat, nat)>, b: seq<(nat, nat)>, group: nat)
    ensures GroupTotal(a + b, group) == GroupTotal(a, group) + GroupTotal(b, group)
  {
    if b == [] {
      assert a + b == a;
    } else {
      GroupTotalOfTwo(a, b[..|b| - 1], group);
      SplitLast(a, b);
    }
  }
}
