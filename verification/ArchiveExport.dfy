/** Streaming export of one family into bounded files, and the independent verification of those
    files. Storage is lossless: a file holds the rows written to it, and the content digest is
    the canonical text itself (an injective digest). Identifiers stand for their position in
    text order. */
module ArchiveExport {
  import opened Collections
  import opened Quantities
  import opened Wrappers

  /** One normalized row: its canonical JSON text, which holds no line break, its timestamp
      column, its key columns and, per column, whether it is null. The time that the query of the
      family filters on may be another column than the timestamp, or a column of a joined table. */
  datatype Row = Row(
    line: string,
    time: Option<int>,
    selectedAt: Option<int>,
    identifier: Option<int>,
    nulls: seq<bool>)

  predicate SingleLine(row: Row) {
    forall i :: 0 <= i < |row.line| ==> row.line[i] != '\n'
  }

  function Flatten(parts: seq<seq<Row>>): seq<Row> {
    if parts == [] then [] else Flatten(parts[..|parts| - 1]) + parts[|parts| - 1]
  }

  lemma FlattenPush(parts: seq<seq<Row>>, part: seq<Row>)
    ensures Flatten(parts + [part]) == Flatten(parts) + part
  {
    assert (parts + [part])[..|parts|] == parts;
  }

  // ---------------------------------------------------------------- statistics of a file

  datatype Stats = Stats(
    rows: nat,
    content: string,
    minTime: Option<int>,
    maxTime: Option<int>,
    minId: Option<int>,
    maxId: Option<int>,
    nullCounts: map<nat, nat>)

  const NO_STATS := Stats(0, "", None, None, None, None, map[])

  function Lower(a: Option<int>, b: Option<int>): Option<int> {
    if a.None? then b else if b.None? then a else if b.value < a.value then b else a
  }

  function Upper(a: Option<int>, b: Option<int>): Option<int> {
    if a.None? then b else if b.None? then a else if a.value < b.value then b else a
  }

  /** Counts one more null in every column that is null; absent columns have no null. */
  function CountNulls(counts: map<nat, nat>, nulls: seq<bool>): map<nat, nat> {
    map c | c in counts.Keys + (set k | 0 <= k < |nulls| && nulls[k]) ::
      (if c in counts then counts[c] else 0) + (if c < |nulls| && nulls[c] then 1 else 0)
  }

  function AddRow(s: Stats, row: Row): Stats {
    Stats(s.rows + 1, s.content + row.line + "\n",
          Lower(s.minTime, row.time), Upper(s.maxTime, row.time),
          Lower(s.minId, row.identifier), Upper(s.maxId, row.identifier),
          CountNulls(s.nullCounts, row.nulls))
  }

  function AddRows(s: Stats, rows: seq<Row>): Stats {
    if rows == [] then s else AddRow(AddRows(s, rows[..|rows| - 1]), rows[|rows| - 1])
  }

  function StatsOf(rows: seq<Row>): Stats { AddRows(NO_STATS, rows) }

  lemma {:induction false} AddRowsAppend(s: Stats, a: seq<Row>, b: seq<Row>)
    ensures AddRows(s, a + b) == AddRows(AddRows(s, a), b)
  {
    if b == [] {
      assert a + b == a;
    } else {
      var n := |b| - 1;
      AddRowsAppend(s, a, b[..n]);
      SplitLast(a, b);
    }
  }

  /** The number of rows whose column c is null. */
  function NullRows(rows: seq<Row>, c: nat): nat {
    if rows == [] then 0
    else
      var last := rows[|rows| - 1];
      NullRows(rows[..|rows| - 1], c) + (if c < |last.nulls| && last.nulls[c] then 1 else 0)
  }

  /** What the statistics mean: the row count, the least and greatest timestamps and identifiers
      that occur, and per column the number of nulls, columns without nulls being left out. */
  ghost predicate Describes(s: Stats, rows: seq<Row>) {
    && s.rows == |rows|
    && IsLeast(s.minTime, rows, (r: Row) => r.time)
    && IsGreatest(s.maxTime, rows, (r: Row) => r.time)
    && IsLeast(s.minId, rows, (r: Row) => r.identifier)
    && IsGreatest(s.maxId, rows, (r: Row) => r.identifier)
    && forall c: nat :: NullRows(rows, c) == (if c in s.nullCounts then s.nullCounts[c] else 0)
                        && (c in s.nullCounts ==> 0 < s.nullCounts[c])
  }

  ghost predicate IsLeast(m: Option<int>, rows: seq<Row>, field: Row -> Option<int>) {
    && (forall i :: 0 <= i < |rows| && field(rows[i]).Some? ==> m.Some? && m.value <= field(rows[i]).value)
    && (m.Some? ==> exists i :: 0 <= i < |rows| && field(rows[i]) == m)
  }

  ghost predicate IsGreatest(m: Option<int>, rows: seq<Row>, field: Row -> Option<int>) {
    && (forall i :: 0 <= i < |rows| && field(rows[i]).Some? ==> m.Some? && field(rows[i]).value <= m.value)
    && (m.Some? ==> exists i :: 0 <= i < |rows| && field(rows[i]) == m)
  }

  lemma LeastExtends(m: Option<int>, rows: seq<Row>, field: Row -> Option<int>)
    requires rows != [] && IsLeast(m, rows[..|rows| - 1], field)
    ensures IsLeast(Lower(m, field(rows[|rows| - 1])), rows, field)
  {
    var n := |rows| - 1;
    var after := Lower(m, field(rows[n]));
    if after.Some? && after == m && m.Some? {
      var i :| 0 <= i < n && field(rows[..n][i]) == m;
      assert field(rows[i]) == m;
    }
    forall i | 0 <= i < |rows| && field(rows[i]).Some?
      ensures after.Some? && after.value <= field(rows[i]).value
    {
      assert i < n ==> rows[..n][i] == rows[i];
    }
  }

  lemma GreatestExtends(m: Option<int>, rows: seq<Row>, field: Row -> Option<int>)
    requires rows != [] && IsGreatest(m, rows[..|rows| - 1], field)
    ensures IsGreatest(Upper(m, field(rows[|rows| - 1])), rows, field)
  {
    var n := |rows| - 1;
    var after := Upper(m, field(rows[n]));
    if after.Some? && after == m && m.Some? {
      var i :| 0 <= i < n && field(rows[..n][i]) == m;
      assert field(rows[i]) == m;
    }
    forall i | 0 <= i < |rows| && field(rows[i]).Some?
      ensures after.Some? && field(rows[i]).value <= after.value
    {
      assert i < n ==> rows[..n][i] == rows[i];
    }
  }

  lemma {:induction false} StatsDescribe(rows: seq<Row>)
    ensures Describes(StatsOf(rows), rows)
  {
    if rows != [] {
      var n := |rows| - 1;
      StatsDescribe(rows[..n]);
      var before := StatsOf(rows[..n]);
      LeastExtends(before.minTime, rows, (r: Row) => r.time);
      GreatestExtends(before.maxTime, rows, (r: Row) => r.time);
      LeastExtends(before.minId, rows, (r: Row) => r.identifier);
      GreatestExtends(before.maxId, rows, (r: Row) => r.identifier);
    }
  }

  // ---------------------------------------------------------------- the content digest

  function Lines(rows: seq<Row>): seq<string> {
    seq(|rows|, i requires 0 <= i < |rows| => rows[i].line)
  }

  /** The digested text determines the canonical text of every row. */
  lemma {:induction false} ContentIsFaithful(a: seq<Row>, b: seq<Row>)
    requires forall i :: 0 <= i < |a| ==> SingleLine(a[i])
    requires forall i :: 0 <= i < |b| ==> SingleLine(b[i])
    requires StatsOf(a).content == StatsOf(b).content
    ensures Lines(a) == Lines(b)
    decreases |a|
  {
    if a == [] || b == [] {
      assert a == b == [];
    } else {
      var m, n := |a| - 1, |b| - 1;
      LastLine(StatsOf(a[..m]).content, a[m].line, StatsOf(b[..n]).content, b[n].line, a[..m], b[..n]);
      ContentIsFaithful(a[..m], b[..n]);
      assert Lines(a) == Lines(a[..m]) + [a[m].line];
      assert Lines(b) == Lines(b[..n]) + [b[n].line];
    }
  }

  /** Text before a last line ends with a line break or is empty. */
  lemma EndsWithBreak(rows: seq<Row>)
    ensures rows == [] || (StatsOf(rows).content != "" && StatsOf(rows).content[|StatsOf(rows).content| - 1] == '\n')
    ensures rows == [] ==> StatsOf(rows).content == ""
  {
  }

  lemma LastLine(p: string, x: string, q: string, y: string, a: seq<Row>, b: seq<Row>)
    requires p + x + "\n" == q + y + "\n"
    requires forall i :: 0 <= i < |x| ==> x[i] != '\n'
    requires forall i :: 0 <= i < |y| ==> y[i] != '\n'
    requires p == StatsOf(a).content && q == StatsOf(b).content
    ensures p == q && x == y
  {
    EndsWithBreak(a);
    EndsWithBreak(b);
    var t := p + x + "\n";
    var u := t[..|t| - 1];
    assert u == p + x && u == q + y;
    BreaksOf(u, p, x);
    BreaksOf(u, q, y);
    assert |p| == |q|;
    assert u[..|p|] == p && u[..|q|] == q && u[|p|..] == x && u[|q|..] == y;
  }

  lemma BreaksOf(u: string, p: string, x: string)
    requires u == p + x && (p == "" || p[|p| - 1] == '\n')
    requires forall i :: 0 <= i < |x| ==> x[i] != '\n'
    ensures forall i :: |p| <= i < |u| ==> u[i] != '\n'
    ensures p != "" ==> u[|p| - 1] == '\n'
  {
    forall i | |p| <= i < |u|
      ensures u[i] != '\n'
    {
      assert u[i] == x[i - |p|];
    }
  }

  // ---------------------------------------------------------------- splitting into files

  /** The files of a stream: full ones and a last one; an empty stream has one empty file. */
  function Split(stream: seq<Row>, limit: nat): seq<seq<Row>>
    requires 0 < limit
  {
    if |stream| <= limit then [stream] else [stream[..limit]] + Split(stream[limit..], limit)
  }

  /** The files concatenate to the stream, every file but the last is full, none is over the
      limit, and only an empty stream has an empty file. */
  lemma SplitProperties(stream: seq<Row>, limit: nat)
    requires 0 < limit
    ensures var files := Split(stream, limit);
      && files != []
      && Flatten(files) == stream
      && (forall i :: 0 <= i < |files| - 1 ==> |files[i]| == limit)
      && |files[|files| - 1]| <= limit
      && (files[|files| - 1] == [] ==> stream == [])
  {
    SplitFlattens(stream, limit);
    SplitIsFull(stream, limit);
  }

  lemma {:induction false} SplitFlattens(stream: seq<Row>, limit: nat)
    requires 0 < limit
    ensures Flatten(Split(stream, limit)) == stream
  {
    if |stream| <= limit {
      assert Flatten([stream]) == Flatten([]) + stream;
    } else {
      SplitFlattens(stream[limit..], limit);
      FlattenPrepend(stream[..limit], Split(stream[limit..], limit));
    }
  }

  lemma {:induction false} SplitIsFull(stream: seq<Row>, limit: nat)
    requires 0 < limit
    ensures var files := Split(stream, limit);
      && files != []
      && (forall i :: 0 <= i < |files| - 1 ==> |files[i]| == limit)
      && |files[|files| - 1]| <= limit
      && (files[|files| - 1] == [] ==> stream == [])
  {
    if limit < |stream| {
      SplitIsFull(stream[limit..], limit);
    }
  }

  lemma {:induction false} FlattenPrepend(part: seq<Row>, parts: seq<seq<Row>>)
    ensures Flatten([part] + parts) == part + Flatten(parts)
  {
    if parts == [] {
      assert [part] + parts == [part];
    } else {
      var n := |parts| - 1;
      FlattenPrepend(part, parts[..n]);
      assert ([part] + parts)[..|parts|] == [part] + parts[..n];
    }
  }

  /** The loop's partition is the specified one: full closed files and a part that is still open. */
  lemma {:induction false} FullPartsAreSplit(closed: seq<seq<Row>>, open: seq<Row>, limit: nat)
    requires 0 < limit && |open| <= limit
    requires forall i :: 0 <= i < |closed| ==> |closed[i]| == limit
    ensures open != [] || closed == [] ==> Split(Flatten(closed) + open, limit) == closed + [open]
    ensures open == [] && closed != [] ==> Split(Flatten(closed) + open, limit) == closed
  {
    if closed == [] {
      assert Flatten(closed) + open == open;
    } else {
      var rest := closed[1..];
      FullPartsAreSplit(rest, open, limit);
      assert closed == [closed[0]] + rest;
      FlattenPrepend(closed[0], rest);
      var tail := Flatten(rest) + open;
      assert Flatten(closed) + open == closed[0] + tail;
      if rest == [] && open == [] {
        assert tail == [];
      } else {
        NonEmptyTail(rest, open, limit);
        assert (closed[0] + tail)[..limit] == closed[0] && (closed[0] + tail)[limit..] == tail;
      }
    }
  }

  lemma NonEmptyTail(parts: seq<seq<Row>>, open: seq<Row>, limit: nat)
    requires 0 < limit && forall i :: 0 <= i < |parts| ==> |parts[i]| == limit
    requires parts != [] || open != []
    ensures 0 < |Flatten(parts) + open|
  {
  }

  // ---------------------------------------------------------------- the export

  datatype Entry = Entry(file: nat, stats: Stats)

  /** The manifest entries of the files, numbered from 0. */
  function Entries(files: seq<seq<Row>>): seq<Entry> {
    seq(|files|, i requires 0 <= i < |files| => Entry(i, StatsOf(files[i])))
  }

  /** Folds a batch of rows into the statistics of the open file. */
  method UpdatePartState(state: Stats, rows: seq<Row>) returns (updated: Stats)
    ensures updated == AddRows(state, rows)
  {
    updated := state;
    for k := 0 to |rows|
      invariant updated == AddRows(state, rows[..k])
    {
      assert rows[..k + 1][..k] == rows[..k];
      var row := rows[k];
      updated := updated.(content := updated.content + row.line + "\n",
                          minTime := Lower(updated.minTime, row.time), maxTime := Upper(updated.maxTime, row.time));
      updated := updated.(minId := Lower(updated.minId, row.identifier), maxId := Upper(updated.maxId, row.identifier));
      updated := updated.(nullCounts := CountNulls(updated.nullCounts, row.nulls), rows := updated.rows + 1);
    }
    assert rows[..|rows|] == rows;
  }

  /** The writer of the export: closed files, the rows of the open one, and its statistics. */
  datatype Writer = Writer(files: seq<seq<Row>>, entries: seq<Entry>, open: Option<seq<Row>>, state: Stats)

  /** The writer holds exactly the stream so far. */
  ghost predicate Wrote(w: Writer, stream: seq<Row>, limit: nat) {
    && (forall i :: 0 <= i < |w.files| ==> |w.files[i]| == limit)
    && w.entries == Entries(w.files)
    && (w.open.Some? ==> 0 < |w.open.value| < limit && w.state == StatsOf(w.open.value))
    && Flatten(w.files) + w.open.GetOr([]) == stream
  }

  function CloseFile(w: Writer): Writer
    requires w.open.Some?
  {
    Writer(w.files + [w.open.value], w.entries + [Entry(|w.files|, w.state)], None, NO_STATS)
  }

  /** As `Wrote`, with an open file that may just have become full. */
  ghost predicate WroteFull(w: Writer, stream: seq<Row>, limit: nat) {
    && (forall i :: 0 <= i < |w.files| ==> |w.files[i]| == limit)
    && w.entries == Entries(w.files)
    && w.open.Some? && 0 < |w.open.value| <= limit && w.state == StatsOf(w.open.value)
    && Flatten(w.files) + w.open.value == stream
  }

  /** Closing a full file records its entry. */
  lemma CloseFull(w: Writer, stream: seq<Row>, limit: nat)
    requires WroteFull(w, stream, limit) && |w.open.value| == limit
    ensures Wrote(CloseFile(w), stream, limit)
  {
    FlattenPush(w.files, w.open.value);
    EntriesPush(w.files, w.open.value);
    AddNothing(Flatten(w.files + [w.open.value]));
  }

  lemma EntriesPush(files: seq<seq<Row>>, part: seq<Row>)
    ensures Entries(files + [part]) == Entries(files) + [Entry(|files|, StatsOf(part))]
  {
  }

  /** Writes the front of a batch into the open file, opening and closing files as needed. */
  method WriteFront(w: Writer, batch: seq<Row>, limit: nat, ghost stream: seq<Row>) returns (next: Writer, taken: nat)
    requires 0 < limit && batch != [] && Wrote(w, stream, limit)
    ensures 0 < taken <= |batch| && Wrote(next, stream + batch[..taken], limit)
  {
    var open := w.open.GetOr([]);
    var remaining := limit - |open|;
    taken := if |batch| < remaining then |batch| else remaining;
    next := FillOpen(w, batch[..taken], limit, stream);
    if |next.open.value| >= limit {
      CloseFull(next, stream + batch[..taken], limit);
      next := CloseFile(next);
    }
  }

  method FillOpen(w: Writer, subset: seq<Row>, limit: nat, ghost stream: seq<Row>) returns (next: Writer)
    requires Wrote(w, stream, limit) && 0 < |subset| <= limit - |w.open.GetOr([])|
    ensures WroteFull(next, stream + subset, limit)
  {
    var open, state := w.open.GetOr([]), if w.open.Some? then w.state else NO_STATS;
    state := UpdatePartState(state, subset);
    AddRowsAppend(NO_STATS, open, subset);
    next := Writer(w.files, w.entries, Some(open + subset), state);
    assert Flatten(w.files) + (open + subset) == (Flatten(w.files) + open) + subset;
  }

  /** Whatever the chunking of the stream, the files and their recorded statistics are those of
      the stream. */
  method ExportOne(chunks: seq<seq<Row>>, limit: nat) returns (files: seq<seq<Row>>, entries: seq<Entry>)
    requires 0 < limit
    ensures files == Split(Flatten(chunks), limit)
    ensures entries == Entries(files)
  {
    var w := Writer([], [], None, NO_STATS);
    for k := 0 to |chunks|
      invariant Wrote(w, Flatten(chunks[..k]), limit)
    {
      w := WriteChunk(w, chunks[k], limit, Flatten(chunks[..k]));
      assert chunks[..k + 1][..k] == chunks[..k];
    }
    assert chunks[..|chunks|] == chunks;
    FullPartsAreSplit(w.files, w.open.GetOr([]), limit);
    if w.open.None? && w.files == [] {
      w := w.(open := Some([]), state := NO_STATS);
    }
    if w.open.Some? {
      w := CloseFile(w);
    }
    files, entries := w.files, w.entries;
  }

  /** The inner loop: one chunk of the stream, front by front. */
  method WriteChunk(w: Writer, chunk: seq<Row>, limit: nat, ghost stream: seq<Row>) returns (next: Writer)
    requires 0 < limit && Wrote(w, stream, limit)
    ensures Wrote(next, stream + chunk, limit)
  {
    next := w;
    var offset := 0;
    AddNothing(stream);
    while offset < |chunk|
      invariant offset <= |chunk|
      invariant Wrote(next, stream + chunk[..offset], limit)
    {
      var taken;
      next, taken := WriteFront(next, chunk[offset..], limit, stream + chunk[..offset]);
      FrontGrows(stream, chunk, offset, taken);
      offset := offset + taken;
    }
    assert chunk[..offset] == chunk;
  }

  lemma FrontGrows(stream: seq<Row>, chunk: seq<Row>, offset: nat, taken: nat)
    requires offset + taken <= |chunk|
    ensures stream + chunk[..offset] + chunk[offset..][..taken] == stream + chunk[..offset + taken]
  {
  }

  // ---------------------------------------------------------------- the independent verifier

  datatype VerifyError = RowCount | Content | MinTime | MaxTime | IdBounds | NullCounts

  predicate SameText(a: Stats, b: Stats) { a.rows == b.rows && a.content == b.content }

  predicate SameTimes(a: Stats, b: Stats) { SameText(a, b) && a.minTime == b.minTime && a.maxTime == b.maxTime }

  /** The error names the first part of the entry that is not what the file holds. */
  predicate FirstDifference(found: Stats, entry: Stats, error: VerifyError) {
    match error
    case RowCount => found.rows != entry.rows
    case Content => found.rows == entry.rows && found.content != entry.content
    case MinTime => SameText(found, entry) && found.minTime != entry.minTime
    case MaxTime => SameText(found, entry) && found.minTime == entry.minTime && found.maxTime != entry.maxTime
    case IdBounds => SameTimes(found, entry) && (found.minId != entry.minId || found.maxId != entry.maxId)
    case NullCounts =>
      && SameTimes(found, entry) && found.minId == entry.minId && found.maxId == entry.maxId
      && found.nullCounts != entry.nullCounts
  }

  /** Reads a file back in batches, recomputes everything, and accepts exactly the entry that
      describes the file. */
  method VerifyEntry(batches: seq<seq<Row>>, entry: Stats) returns (r: Result<(), VerifyError>)
    ensures r.Success? <==> entry == StatsOf(Flatten(batches))
    ensures r.Failure? ==> FirstDifference(StatsOf(Flatten(batches)), entry, r.error)
  {
    var state := NO_STATS;
    for k := 0 to |batches|
      invariant state == StatsOf(Flatten(batches[..k]))
    {
      AddRowsAppend(NO_STATS, Flatten(batches[..k]), batches[k]);
      assert batches[..k + 1][..k] == batches[..k];
      state := UpdatePartState(state, batches[k]);
    }
    assert batches[..|batches|] == batches;
    if state.rows != entry.rows { return Failure(RowCount); }
    if state.content != entry.content { return Failure(Content); }
    if state.minTime != entry.minTime { return Failure(MinTime); }
    if state.maxTime != entry.maxTime { return Failure(MaxTime); }
    if state.minId != entry.minId || state.maxId != entry.maxId { return Failure(IdBounds); }
    if state.nullCounts != entry.nullCounts { return Failure(NullCounts); }
    return Success(());
  }

  /** Export agrees with verification: every file of every export, read back in any batches, is
      accepted against its own entry; and a file that is accepted against that entry has the
      same canonical rows. */
  lemma ExportAgreesWithVerification(stream: seq<Row>, limit: nat, i: nat, stored: seq<Row>)
    requires 0 < limit && i < |Split(stream, limit)|
    ensures var file := Split(stream, limit)[i];
      && (stored == file ==> Entries(Split(stream, limit))[i].stats == StatsOf(stored))
      && (&& Entries(Split(stream, limit))[i].stats == StatsOf(stored)
          && (forall k :: 0 <= k < |stored| ==> SingleLine(stored[k]))
          && (forall k :: 0 <= k < |file| ==> SingleLine(file[k]))
          ==> Lines(stored) == Lines(file))
  {
    var file := Split(stream, limit)[i];
    if && Entries(Split(stream, limit))[i].stats == StatsOf(stored)
       && (forall k :: 0 <= k < |stored| ==> SingleLine(stored[k]))
       && (forall k :: 0 <= k < |file| ==> SingleLine(file[k])) {
      ContentIsFaithful(stored, file);
    }
  }

  // ---------------------------------------------------------------- daily ranges

  datatype Range = Range(start: int, end: int)

  function DayOf(t: int): int { t / DAY }

  /** Non-empty ranges that follow one another from start to end, each within one UTC day. */
  predicate TilesDays(ranges: seq<Range>, start: int, end: int) {
    if ranges == [] then start == end
    else
      var last := ranges[|ranges| - 1];
      && last.start < last.end == end
      && DayOf(last.start) == DayOf(last.end - 1)
      && TilesDays(ranges[..|ranges| - 1], start, last.start)
  }

  method DailyRanges(start: int, end: int) returns (ranges: seq<Range>)
    ensures start <= end ==> TilesDays(ranges, start, end)
    ensures end <= start ==> ranges == []
    ensures forall i :: 0 <= i < |ranges| - 1 ==> ranges[i].end % DAY == 0
  {
    ranges := [];
    var cursor := start;
    while cursor < end
      invariant start <= cursor && (cursor <= end || ranges == [])
      invariant TilesDays(ranges, start, cursor)
      invariant end <= start ==> ranges == []
      invariant forall i :: 0 <= i < |ranges| ==> ranges[i].end % DAY == 0 || ranges[i].end == end
      invariant forall i :: 0 <= i < |ranges| ==> ranges[i].end <= cursor
      invariant forall i :: 0 <= i < |ranges| - 1 ==> ranges[i].end % DAY == 0
      decreases end - cursor
    {
      var boundary := DayOf(cursor) * DAY + DAY;
      var next := if boundary < end then boundary else end;
      assert (ranges + [Range(cursor, next)])[..|ranges|] == ranges;
      ranges := ranges + [Range(cursor, next)];
      cursor := next;
    }
  }

  predicate Within(r: Range, t: int) { r.start <= t < r.end }

  /** The rows of a table that the half-open time filter selects, in table order. */
  function Select(table: seq<Row>, r: Range): seq<Row> {
    if table == [] then []
    else
      var last := table[|table| - 1];
      Select(table[..|table| - 1], r) + if last.selectedAt.Some? && Within(r, last.selectedAt.value) then [last] else []
  }

  lemma {:induction false} SelectSplits(table: seq<Row>, a: int, b: int, c: int)
    requires a <= b <= c
    ensures multiset(Select(table, Range(a, c)))
         == multiset(Select(table, Range(a, b))) + multiset(Select(table, Range(b, c)))
  {
    if table != [] {
      SelectSplits(table[..|table| - 1], a, b, c);
    }
  }

  /** All rows exported over the ranges, file by file. */
  function ExportedRows(table: seq<Row>, ranges: seq<Range>, limit: nat): seq<Row>
    requires 0 < limit
  {
    if ranges == [] then []
    else ExportedRows(table, ranges[..|ranges| - 1], limit)
         + Flatten(Split(Select(table, ranges[|ranges| - 1]), limit))
  }

  /** Exporting day by day exports every selected row exactly once: as a multiset the exported
      rows are the rows of the whole range. */
  lemma {:induction false} EachRowExportedOnce(table: seq<Row>, ranges: seq<Range>, start: int, end: int, limit: nat)
    requires 0 < limit && TilesDays(ranges, start, end)
    ensures start <= end
    ensures multiset(ExportedRows(table, ranges, limit)) == multiset(Select(table, Range(start, end)))
  {
    if ranges == [] {
      SelectSplits(table, start, start, start);
      assert multiset(Select(table, Range(start, start))) == multiset{};
    } else {
      var n := |ranges| - 1;
      var last := ranges[n];
      EachRowExportedOnce(table, ranges[..n], start, last.start, limit);
      SplitProperties(Select(table, last), limit);
      SelectSplits(table, start, last.start, end);
      assert last == Range(last.start, end);
    }
  }

  // ---------------------------------------------------------------- source counts

  /** Exported rows of one group of entries: a family and its range. */
  function GroupTotal(entries: seq<(nat, nat)>, group: nat): nat {
    if entries == [] then 0
    else
      var (g, rows) := entries[|entries| - 1];
      GroupTotal(entries[..|entries| - 1], group) + (if g == group then rows else 0)
  }

  /** Accepts exactly when every group that occurs exported as many rows as its source holds. */
  method VerifySourceCounts(entries: seq<(nat, nat)>, source: nat -> nat) returns (r: Result<(), nat>)
    ensures r.Success? <==> forall i :: 0 <= i < |entries| ==> GroupTotal(entries, entries[i].0) == source(entries[i].0)
  {
    var grouped: map<nat, nat> := map[];
    for k := 0 to |entries|
      invariant forall g :: g in grouped <==> exists i :: 0 <= i < k && entries[i].0 == g
      invariant forall g :: GroupTotal(entries[..k], g) == if g in grouped then grouped[g] else 0
    {
      assert entries[..k + 1][..k] == entries[..k];
      var (g, rows) := entries[k];
      grouped := grouped[g := (if g in grouped then grouped[g] else 0) + rows];
    }
    assert entries[..|entries|] == entries;
    var rest := grouped.Keys;
    while rest != {}
      invariant rest <= grouped.Keys
      invariant forall g :: g in grouped && g !in rest ==> grouped[g] == source(g)
      decreases rest
    {
      var g :| g in rest;
      if source(g) != grouped[g] {
        return Failure(g);
      }
      rest := rest - {g};
    }
    return Success(());
  }
}
