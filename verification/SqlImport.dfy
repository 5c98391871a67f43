// The file store's logs replayed into the SQL backend: the rows it leaves, what it
// counts, and the answers afterwards.
module SqlImport {
  import opened Prelude
  import opened Records
  import opened LogText
  import opened Utf8
  import opened StoreModel
  import opened StoreTheorems
  import opened FileStore
  import opened Replay
  import opened SqlStore

  // ----- the target -----

  class SqlCache {
    const c: Codec
    const bodyNumbers: string -> seq<nat>
    var rows: Database

    constructor (c: Codec, bodyNumbers: string -> seq<nat>)
      ensures this.c == c && this.bodyNumbers == bodyNumbers && rows == RowsOf(EmptyMem())
    {
      this.c, this.bodyNumbers := c, bodyNumbers;
      rows := RowsOf(EmptyMem());
    }

    /** Every upsert and append: validate, bind the numbers, insert. */
    method Insert(r: Record) returns (ok: bool)
      modifies this
      ensures ok == (c.accepts(r) && FitsColumns(bodyNumbers, r))
      ensures rows == if ok then old(rows)[TableOf(r) := SqlInsert(old(rows)[TableOf(r)], r)] else old(rows)
    {
      ok := c.accepts(r) && FitsColumns(bodyNumbers, r);
      if ok {
        rows := rows[TableOf(r) := SqlInsert(rows[TableOf(r)], r)];
      }
    }
  }

  // ----- the replay -----

  lemma OfferedRows(c: Codec, bodyNumbers: string -> seq<nat>, t: Table, line: seq<byte>, m: Mem)
    requires Faithful(c) && MemKeyed(m)
    ensures var next := m[t := Offered(Fitting(c, bodyNumbers), t, line, m[t])];
      && MemKeyed(next)
      && RowsOf(next)
         == match c.decode(t, line)
            case Some(r) =>
              if !c.isBlank(line) && c.accepts(r) && FitsColumns(bodyNumbers, r) then
                RowsOf(m)[TableOf(r) := SqlInsert(RowsOf(m)[TableOf(r)], r)]
              else RowsOf(m)
            case None => RowsOf(m)
  {
    OfferedClass(c, bodyNumbers, t, line);
    DecodedTable(c, t, line);
    OfferedIs(Fitting(c, bodyNumbers), t, line, m[t]);
    SameValue(m, t);
    hide *;
    if c.decode(t, line).Some? {
      WriteRows(m, c.decode(t, line).value);
    }
  }

  lemma DecodedTable(c: Codec, t: Table, line: seq<byte>)
    requires Faithful(c)
    ensures c.decode(t, line).Some? ==> TableOf(c.decode(t, line).value) == t
  {
    hide TableOf;
  }

  lemma OfferedIs(c: Codec, t: Table, line: seq<byte>, m: TableMap)
    ensures Offered(c, t, line, m) == match Classify(c, t, line) case Valid(r) => Put(m, r) case _ => m
  {
    hide Classify, Put;
  }

  lemma OfferedClass(c: Codec, bodyNumbers: string -> seq<nat>, t: Table, line: seq<byte>)
    ensures Classify(Fitting(c, bodyNumbers), t, line)
         == if c.isBlank(line) then Blank
            else match c.decode(t, line)
                 case None => Skipped
                 case Some(r) => if c.accepts(r) && FitsColumns(bodyNumbers, r) then Valid(r) else Skipped
  {
    hide FitsColumns;
  }

  /** One line of a log, offered to the SQL backend that holds `m`. */
  method OfferLine(file: FileCache, t: Table, line: seq<byte>, target: SqlCache, ghost m: Mem) returns (taken: nat)
    requires Faithful(file.c) && target.c == file.c && MemKeyed(m) && target.rows == RowsOf(m)
    modifies target, file`skippedLines
    ensures target.rows == RowsOf(m[t := Offered(Fitting(file.c, target.bodyNumbers), t, line, m[t])])
    ensures MemKeyed(m[t := Offered(Fitting(file.c, target.bodyNumbers), t, line, m[t])])
    ensures taken == if Classify(Fitting(file.c, target.bodyNumbers), t, line).Valid? then 1 else 0
    ensures file.skippedLines
         == old(file.skippedLines) + if Classify(Fitting(file.c, target.bodyNumbers), t, line).Skipped? then 1 else 0
  {
    hide *;
    OfferedRows(file.c, target.bodyNumbers, t, line, m);
    OfferedClass(file.c, target.bodyNumbers, t, line);
    taken := 0;
    if !file.c.isBlank(line) {
      match file.c.decode(t, line) {
        case None => file.skippedLines := file.skippedLines + 1;
        case Some(r) =>
          var ok := target.Insert(r);
          if ok {
            taken := 1;
          } else {
            file.skippedLines := file.skippedLines + 1;
          }
      }
    }
  }

  /** The lines of a log, one after the other. */
  method OfferLines(file: FileCache, t: Table, lines: seq<seq<byte>>, target: SqlCache, ghost m: Mem,
                    ghost fitting: Codec)
    returns (valid: nat)
    requires Faithful(file.c) && target.c == file.c && MemKeyed(m) && target.rows == RowsOf(m)
    requires fitting == Fitting(file.c, target.bodyNumbers)
    modifies target, file`skippedLines
    ensures valid == |ParseLines(fitting, t, lines)|
    ensures target.rows == RowsOf(m[t := PutAll(m[t], ParseLines(fitting, t, lines))])
    ensures MemKeyed(m[t := PutAll(m[t], ParseLines(fitting, t, lines))])
    ensures file.skippedLines == old(file.skippedLines) + CountSkipped(fitting, t, lines)
  {
    hide *;
    ghost var records := ParseLines(fitting, t, lines);
    valid := 0;
    var i := 0;
    assert lines[0..] == lines;
    SameValue(m, t);
    ghost var table := m[t];
    while i < |lines|
      invariant i <= |lines|
      invariant MemKeyed(m[t := table]) && target.rows == RowsOf(m[t := table])
      invariant PutAll(table, ParseLines(fitting, t, lines[i..])) == PutAll(m[t], records)
      invariant valid + |ParseLines(fitting, t, lines[i..])| == |records|
      invariant file.skippedLines + CountSkipped(fitting, t, lines[i..])
             == old(file.skippedLines) + CountSkipped(fitting, t, lines)
    {
      LineStep(fitting, t, lines, i, table);
      SetMapAgain(m, t, table, Offered(fitting, t, lines[i], table));
      var taken := OfferLine(file, t, lines[i], target, m[t := table]);
      table := Offered(fitting, t, lines[i], table);
      valid := valid + taken;
      i := i + 1;
    }
    NoLinesLeft(fitting, t, table);
    assert lines[i..] == [];
  }

  /** `load_table` with the SQL backend as its target. */
  method LoadLines(file: FileCache, t: Table, target: SqlCache, ghost m: Mem) returns (valid: Option<nat>)
    requires Faithful(file.c) && target.c == file.c && MemKeyed(m) && target.rows == RowsOf(m)
    modifies target, file`skippedLines
    ensures valid.Some? == IsUtf8(file.dir.logs[t])
    ensures valid.Some? ==>
              var fitting := Fitting(file.c, target.bodyNumbers);
              && valid.value == |ValidRecords(fitting, t, file.dir.logs[t])|
              && target.rows == RowsOf(ReplayOne(fitting, file.dir.logs, m, t))
              && MemKeyed(ReplayOne(fitting, file.dir.logs, m, t))
              && file.skippedLines == old(file.skippedLines) + SkippedIn(fitting, t, file.dir.logs[t])
    ensures valid.None? ==> target.rows == old(target.rows) && file.skippedLines == old(file.skippedLines)
  {
    hide *;
    if !IsUtf8(file.dir.logs[t]) {
      return None;
    }
    ghost var fitting := Fitting(file.c, target.bodyNumbers);
    LinesRead(fitting, file.dir.logs, m, t);
    var count := OfferLines(file, t, Lines(Complete(file.dir.logs[t])), target, m, fitting);
    valid := Some(count);
  }

  lemma SetMapAgain(tables: Mem, t: Table, a: TableMap, b: TableMap)
    ensures tables[t := a][t := b] == tables[t := b] && tables[t := a][t] == a && tables[t := b][t] == b
  {
  }

  /** `replay_logs` with the SQL backend as its target. */
  method ReplayLogs(file: FileCache, target: SqlCache, ghost m: Mem) returns (ok: bool)
    requires Faithful(file.c) && target.c == file.c && MemKeyed(m) && target.rows == RowsOf(m)
    modifies target, file`skippedLines
    ensures var fitting := Fitting(file.c, target.bodyNumbers);
      && target.rows == RowsOf(ReplayInOrder(fitting, file.dir.logs, m, AllTables()).0)
      && file.skippedLines == old(file.skippedLines) + ReplayInOrder(fitting, file.dir.logs, m, AllTables()).1
      && ok == ReplayInOrder(fitting, file.dir.logs, m, AllTables()).2
  {
    var ts := AllTables();
    hide *;
    ghost var fitting := Fitting(file.c, target.bodyNumbers);
    ghost var logs := file.dir.logs;
    ghost var all := ReplayInOrder(fitting, logs, m, ts);
    ghost var now := m;
    var i := 0;
    assert ts[0..] == ts;
    while i < |ts|
      invariant i <= |ts| && MemKeyed(now) && target.rows == RowsOf(now)
      invariant ReplayInOrder(fitting, logs, now, ts[i..]).0 == all.0
      invariant file.skippedLines + ReplayInOrder(fitting, logs, now, ts[i..]).1 == old(file.skippedLines) + all.1
      invariant ReplayInOrder(fitting, logs, now, ts[i..]).2 == all.2
    {
      ReplayNext(fitting, logs, now, ts, i);
      var valid := LoadLines(file, ts[i], target, now);
      if valid.None? {
        return false;
      }
      now := ReplayOne(fitting, logs, now, ts[i]);
      i := i + 1;
    }
    assert ts[i..] == [];
    ReplayNone(fitting, logs, now);
    ok := true;
  }

  /** `replay_into` with the SQL backend as its target: the logs, up to the first that is
      not text, into the rows; a line whose record the columns cannot hold is not replayed
      and counts. The file store, its counter included, stays as it is. */
  method ReplayInto(file: FileCache, target: SqlCache, ghost m: Mem) returns (notReplayed: Option<nat>)
    requires file.Valid() && target.c == file.c && MemKeyed(m) && target.rows == RowsOf(m)
    modifies target, file`skippedLines
    ensures file.Valid() && file.View() == old(file.View()) && file.skippedLines == old(file.skippedLines)
    ensures var fitting := Fitting(file.c, target.bodyNumbers);
      && target.rows == RowsOf(ReplayInOrder(fitting, file.dir.logs, m, AllTables()).0)
      && notReplayed.Some? == ReplayInOrder(fitting, file.dir.logs, m, AllTables()).2
      && (notReplayed.Some? ==> notReplayed.value == ReplayInOrder(fitting, file.dir.logs, m, AllTables()).1)
  {
    hide *;
    file.UseValid();
    file.StateIs();
    var before := file.skippedLines;
    var ok := ReplayLogs(file, target, m);
    notReplayed := if ok then Some(file.skippedLines - before) else None;
    file.skippedLines := before;
    file.StateIs();
    file.MakeValid();
    file.UseValid();
  }

  // ----- what an import leaves -----

  lemma FittingIsFaithful(c: Codec, bodyNumbers: string -> seq<nat>)
    requires Faithful(c)
    ensures Faithful(Fitting(c, bodyNumbers))
  {
    hide FitsColumns;
  }

  /** Broken off anywhere - of each log, some first records replayed - and then repeated
      in full, an import leaves the rows of one full import. */
  lemma InterruptedImport(c: Codec, bodyNumbers: string -> seq<nat>, logs: Files, part: Files, m: Mem)
    requires Faithful(c) && forall t: Table :: IsUtf8(logs[t])
    requires forall t: Table ::
      ValidRecords(Fitting(c, bodyNumbers), t, part[t]) <= ValidRecords(Fitting(c, bodyNumbers), t, logs[t])
    ensures var fitting := Fitting(c, bodyNumbers);
      RowsOf(ReplayInOrder(fitting, logs, Replayed(fitting, part, m), AllTables()).0)
      == RowsOf(ReplayInOrder(fitting, logs, m, AllTables()).0)
  {
    hide *;
    var fitting := Fitting(c, bodyNumbers);
    FittingIsFaithful(c, bodyNumbers);
    ReplayCompletes(fitting, logs, m);
    ReplayCompletes(fitting, logs, Replayed(fitting, part, m));
    InterruptedReplay(fitting, logs, part, m);
  }

  /** The records that the columns cannot hold. */
  function Misfits(bodyNumbers: string -> seq<nat>, rs: seq<Record>): nat {
    if rs == [] then 0 else (if FitsColumns(bodyNumbers, rs[0]) then 0 else 1) + Misfits(bodyNumbers, rs[1..])
  }

  /** Of the records that a log gives the maps, the columns take those that fit; the others
      are counted with the malformed lines. */
  lemma {:induction false} FittingLines(c: Codec, bodyNumbers: string -> seq<nat>, t: Table, lines: seq<seq<byte>>)
    ensures CountSkipped(Fitting(c, bodyNumbers), t, lines)
         == CountSkipped(c, t, lines) + Misfits(bodyNumbers, ParseLines(c, t, lines))
    ensures Misfits(bodyNumbers, ParseLines(c, t, lines)) == 0 ==>
              ParseLines(Fitting(c, bodyNumbers), t, lines) == ParseLines(c, t, lines)
  {
    if lines != [] {
      FittingLines(c, bodyNumbers, t, lines[1..]);
      OfferedClass(c, bodyNumbers, t, lines[0]);
      hide FitsColumns, Fitting;
      var rest := ParseLines(c, t, lines[1..]);
      if Classify(c, t, lines[0]).Valid? {
        var r := Classify(c, t, lines[0]).record;
        assert ParseLines(c, t, lines) == [r] + rest && ([r] + rest)[1..] == rest;
      } else {
        assert [] + rest == rest;
      }
    }
  }

  /** The records of the logs, up to the first that is not text, that the columns cannot
      hold. */
  function MisfitsInOrder(c: Codec, bodyNumbers: string -> seq<nat>, logs: Files, ts: seq<Table>): nat {
    if ts == [] || !IsUtf8(logs[ts[0]]) then 0
    else Misfits(bodyNumbers, ValidRecords(c, ts[0], logs[ts[0]])) + MisfitsInOrder(c, bodyNumbers, logs, ts[1..])
  }

  lemma FittingSkips(c: Codec, bodyNumbers: string -> seq<nat>, t: Table, text: seq<byte>)
    ensures SkippedIn(Fitting(c, bodyNumbers), t, text) == SkippedIn(c, t, text) + Misfits(bodyNumbers, ValidRecords(c, t, text))
  {
    FittingLines(c, bodyNumbers, t, Lines(Complete(text)));
    hide ParseLines, Lines, Complete, Misfits, Fitting, CountSkipped;
  }

  /** The count of an import: the lines that a replay into the maps would not replay, and
      the records that the columns cannot hold. */
  lemma {:induction false} ImportCount(c: Codec, bodyNumbers: string -> seq<nat>, logs: Files, m: Mem, n: Mem,
                                       ts: seq<Table>)
    ensures ReplayInOrder(Fitting(c, bodyNumbers), logs, m, ts).1
         == ReplayInOrder(c, logs, n, ts).1 + MisfitsInOrder(c, bodyNumbers, logs, ts)
    decreases |ts|
  {
    if ts != [] && IsUtf8(logs[ts[0]]) {
      var t, fitting := ts[0], Fitting(c, bodyNumbers);
      ReplayStep(fitting, logs, m, ts);
      ReplayStep(c, logs, n, ts);
      FittingSkips(c, bodyNumbers, t, logs[t]);
      hide Fitting, ReplayOne, ReplayInOrder, SkippedIn, Misfits, ValidRecords, IsUtf8;
      ImportCount(c, bodyNumbers, logs, ReplayOne(fitting, logs, m, t), ReplayOne(c, logs, n, t), ts[1..]);
    }
  }

  /** What the import of one table adds to the count, beyond what this store skips. */
  function TableMisfits(c: Codec, bodyNumbers: string -> seq<nat>, s: Store, t: Table): nat {
    Misfits(bodyNumbers, ValidRecords(c, t, s[t].text))
  }

  lemma FittingContents(c: Codec, bodyNumbers: string -> seq<nat>, s: Store, t: Table)
    requires TableMisfits(c, bodyNumbers, s, t) == 0
    ensures Contents(Fitting(c, bodyNumbers), t, s[t].text) == Contents(c, t, s[t].text)
  {
    FittingLines(c, bodyNumbers, t, Lines(Complete(s[t].text)));
    hide ParseLines, Lines, Complete, Misfits, Fitting;
  }

  lemma FittingDurable(c: Codec, bodyNumbers: string -> seq<nat>, s: Store)
    requires forall t: Table :: TableMisfits(c, bodyNumbers, s, t) == 0
    ensures Durable(Fitting(c, bodyNumbers), s) == Durable(c, s)
  {
    hide *;
    var a, b := Durable(Fitting(c, bodyNumbers), s), Durable(c, s);
    forall t: Table
      ensures a[t] == b[t]
    {
      DurableAt(c, s, t);
      DurableAt(Fitting(c, bodyNumbers), s, t);
      FittingContents(c, bodyNumbers, s, t);
    }
    SameTables(a, b);
  }

  lemma InvText(c: Codec, s: Store)
    requires Inv(c, s)
    ensures forall t: Table :: IsUtf8(FilesOf(s)[t])
  {
    hide IsUtf8, Whole, Contents, ValidRecords;
    forall t: Table
      ensures IsUtf8(FilesOf(s)[t])
    {
      assert TableInv(c, t, s[t]);
    }
  }

  /** The import of a file store into an empty database completes, and leaves the rows of
      the records that a reopening would find if it refused what the columns cannot hold. */
  lemma ImportLeaves(c: Codec, bodyNumbers: string -> seq<nat>, s: Store)
    requires Inv(c, s)
    ensures ReplayInOrder(Fitting(c, bodyNumbers), FilesOf(s), EmptyMem(), AllTables()).2
    ensures ReplayInOrder(Fitting(c, bodyNumbers), FilesOf(s), EmptyMem(), AllTables()).0
         == Durable(Fitting(c, bodyNumbers), s)
  {
    hide *;
    InvText(c, s);
    ReplayCompletes(Fitting(c, bodyNumbers), FilesOf(s), EmptyMem());
    ReplayIsReopening(Fitting(c, bodyNumbers), s);
  }

  /** A file store imported into an empty database, every record fitting: over any further
      run that fits, the database answers as the file store would have, and in no other
      way. */
  lemma ImportChangesNoAnswer(c: Codec, bodyNumbers: string -> seq<nat>, s: Store, ops: seq<Op>, answers: seq<Answer>)
    requires Faithful(c) && Inv(c, s) && AllFit(c, bodyNumbers, ops)
    requires forall t: Table :: TableMisfits(c, bodyNumbers, s, t) == 0
    ensures var imported := ReplayInOrder(Fitting(c, bodyNumbers), FilesOf(s), EmptyMem(), AllTables()).0;
      SqlRun(c, bodyNumbers, RowsOf(imported), ops, answers) <==> answers == StoreRun(c, s, ops).1
  {
    hide *;
    ImportLeaves(c, bodyNumbers, s);
    FittingDurable(c, bodyNumbers, s);
    FileAndSqlAgree(c, bodyNumbers, s, ops);
  }
}
