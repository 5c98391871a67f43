// What reading a table's log line by line comes to, every table in turn, and the replay
// of all the logs into another store.
module Replay {
  import opened Prelude
  import opened Records
  import opened LogText
  import opened Utf8
  import opened StoreModel
  import opened StoreTheorems

  // ----- line by line -----

  /** A table once a line of its log has been offered to it. */
  function Offered(c: Codec, t: Table, line: seq<byte>, m: TableMap): TableMap {
    if Classify(c, t, line).Valid? then Put(m, Classify(c, t, line).record) else m
  }

  lemma NoLinesLeft(c: Codec, t: Table, m: TableMap)
    ensures ParseLines(c, t, []) == [] && CountSkipped(c, t, []) == 0 && PutAll(m, []) == m
  {
  }

  lemma ParseStep(c: Codec, t: Table, lines: seq<seq<byte>>, i: nat)
    requires i < |lines|
    ensures ParseLines(c, t, lines[i..])
         == (match Classify(c, t, lines[i]) case Valid(r) => [r] case _ => []) + ParseLines(c, t, lines[i + 1..])
    ensures CountSkipped(c, t, lines[i..])
         == CountSkipped(c, t, lines[i + 1..]) + if Classify(c, t, lines[i]).Skipped? then 1 else 0
  {
    hide Classify;
    var rest := lines[i..];
    assert rest[0] == lines[i] && rest[1..] == lines[i + 1..];
  }

  lemma OfferedFirst(c: Codec, t: Table, line: seq<byte>, m: TableMap, rest: seq<Record>)
    ensures PutAll(m, (match Classify(c, t, line) case Valid(r) => [r] case _ => []) + rest)
         == PutAll(Offered(c, t, line, m), rest)
  {
    match Classify(c, t, line)
    case Valid(r) =>
      AppendSplits([r], rest);
    case _ =>
      assert [] + rest == rest;
  }

  /** What the lines still to come do, before and after one line. */
  lemma LineStep(c: Codec, t: Table, lines: seq<seq<byte>>, i: nat, m: TableMap)
    requires i < |lines|
    ensures CountSkipped(c, t, lines[i..])
         == CountSkipped(c, t, lines[i + 1..]) + if Classify(c, t, lines[i]).Skipped? then 1 else 0
    ensures |ParseLines(c, t, lines[i..])|
         == |ParseLines(c, t, lines[i + 1..])| + if Classify(c, t, lines[i]).Valid? then 1 else 0
    ensures PutAll(m, ParseLines(c, t, lines[i..]))
         == PutAll(Offered(c, t, lines[i], m), ParseLines(c, t, lines[i + 1..]))
  {
    hide *;
    ParseStep(c, t, lines, i);
    OfferedFirst(c, t, lines[i], m, ParseLines(c, t, lines[i + 1..]));
  }

  // ----- table by table -----

  /** The tables in their fixed order. */
  function AllTables(): seq<Table> {
    [Profiles, CatalogSnapshots, DatasetManifests, QueryPlans, QueryReceipts, PartitionMetadata, Exports, CostHistory,
     ReplayBundles, AuditLog]
  }

  /** The lines that loading the tables in order skips: an unread table's, up to the first
      that does not load. */
  function SkippedInOrder(c: Codec, s: Store, ts: seq<Table>): nat
    decreases |ts|
  {
    if ts == [] || !Loads(s[ts[0]]) then 0
    else
      (if s[ts[0]].loaded then 0 else SkippedIn(c, ts[0], s[ts[0]].text))
      + SkippedInOrder(c, Load(c, s, ts[0]), ts[1..])
  }

  lemma LoadNext(c: Codec, s: Store, ts: seq<Table>, i: nat)
    requires i < |ts|
    ensures LoadInOrder(c, s, ts[i..])
         == if Loads(s[ts[i]]) then LoadInOrder(c, Load(c, s, ts[i]), ts[i + 1..]) else (s, false)
    ensures SkippedInOrder(c, s, ts[i..])
         == if Loads(s[ts[i]]) then
              (if s[ts[i]].loaded then 0 else SkippedIn(c, ts[i], s[ts[i]].text))
              + SkippedInOrder(c, Load(c, s, ts[i]), ts[i + 1..])
            else 0
  {
    hide Load, Loads, SkippedIn;
    var rest := ts[i..];
    assert rest[0] == ts[i] && rest[1..] == ts[i + 1..];
  }

  lemma LoadNone(c: Codec, s: Store)
    ensures LoadInOrder(c, s, []) == (s, true) && SkippedInOrder(c, s, []) == 0
  {
  }

  predicate Distinct(ts: seq<Table>) {
    forall i, j :: 0 <= i < j < |ts| ==> ts[i] != ts[j]
  }

  lemma AllTablesAre(t: Table)
    ensures t in AllTables() && Distinct(AllTables())
  {
    var ts := AllTables();
    assert Profiles == ts[0] && CatalogSnapshots == ts[1] && DatasetManifests == ts[2] && QueryPlans == ts[3];
    assert QueryReceipts == ts[4] && PartitionMetadata == ts[5] && Exports == ts[6] && CostHistory == ts[7];
    assert ReplayBundles == ts[8] && AuditLog == ts[9];
  }

  // ----- replay -----

  /** A store after one log is replayed into it. */
  function ReplayOne(c: Codec, logs: Files, m: Mem, t: Table): Mem {
    m[t := PutAll(m[t], ValidRecords(c, t, logs[t]))]
  }

  /** The store once the logs are replayed in order, up to the first that is not text; the
      lines not replayed; and whether all logs were. */
  function ReplayInOrder(c: Codec, logs: Files, m: Mem, ts: seq<Table>): (Mem, nat, bool)
    decreases |ts|
  {
    if ts == [] then (m, 0, true)
    else if !IsUtf8(logs[ts[0]]) then (m, 0, false)
    else
      var later := ReplayInOrder(c, logs, ReplayOne(c, logs, m, ts[0]), ts[1..]);
      (later.0, SkippedIn(c, ts[0], logs[ts[0]]) + later.1, later.2)
  }

  lemma ReplayStep(c: Codec, logs: Files, m: Mem, ts: seq<Table>)
    requires ts != []
    ensures var all, later := ReplayInOrder(c, logs, m, ts), ReplayInOrder(c, logs, ReplayOne(c, logs, m, ts[0]), ts[1..]);
      if IsUtf8(logs[ts[0]]) then
        all.0 == later.0 && all.1 == SkippedIn(c, ts[0], logs[ts[0]]) + later.1 && all.2 == later.2
      else
        all.0 == m && all.1 == 0 && !all.2
  {
    hide ReplayOne, SkippedIn, IsUtf8;
  }

  lemma ReplayNext(c: Codec, logs: Files, m: Mem, ts: seq<Table>, i: nat)
    requires i < |ts|
    ensures var all, later :=
        ReplayInOrder(c, logs, m, ts[i..]), ReplayInOrder(c, logs, ReplayOne(c, logs, m, ts[i]), ts[i + 1..]);
      if IsUtf8(logs[ts[i]]) then
        all.0 == later.0 && all.1 == SkippedIn(c, ts[i], logs[ts[i]]) + later.1 && all.2 == later.2
      else
        all.0 == m && all.1 == 0 && !all.2
  {
    hide *;
    assert ts[i..][0] == ts[i] && ts[i..][1..] == ts[i + 1..];
    ReplayStep(c, logs, m, ts[i..]);
  }

  lemma ReplayNone(c: Codec, logs: Files, m: Mem)
    ensures ReplayInOrder(c, logs, m, []) == (m, 0, true)
  {
  }

  lemma ReplayOneAt(c: Codec, logs: Files, m: Mem, t: Table, u: Table)
    ensures ReplayOne(c, logs, m, t)[u] == if u == t then PutAll(m[u], ValidRecords(c, u, logs[u])) else m[u]
  {
    hide PutAll, ValidRecords;
  }

  /** A store after all the logs are replayed into it. */
  function Replayed(c: Codec, logs: Files, m: Mem): Mem {
    map t: Table | true :: PutAll(m[t], ValidRecords(c, t, logs[t]))
  }

  lemma ReplayedAt(c: Codec, logs: Files, m: Mem, t: Table)
    ensures Replayed(c, logs, m)[t] == PutAll(m[t], ValidRecords(c, t, logs[t]))
  {
    hide PutAll, ValidRecords;
  }

  /** A replay that meets no unreadable log replays each table's records, and only those. */
  lemma {:induction false} ReplayInOrderAt(c: Codec, logs: Files, m: Mem, ts: seq<Table>, t: Table)
    requires Distinct(ts) && forall u :: u in ts ==> IsUtf8(logs[u])
    ensures ReplayInOrder(c, logs, m, ts).2
    ensures ReplayInOrder(c, logs, m, ts).0[t]
         == if t in ts then PutAll(m[t], ValidRecords(c, t, logs[t])) else m[t]
    decreases |ts|
  {
    if ts != [] {
      ReplayOneAt(c, logs, m, ts[0], t);
      assert Distinct(ts[1..]) && (t in ts <==> t == ts[0] || t in ts[1..]);
      assert t == ts[0] ==> t !in ts[1..];
      hide ReplayOne, SkippedIn, IsUtf8, PutAll, ValidRecords;
      ReplayInOrderAt(c, logs, ReplayOne(c, logs, m, ts[0]), ts[1..], t);
    }
  }

  /** Replaying readable logs puts every record of every table. */
  lemma ReplayCompletes(c: Codec, logs: Files, m: Mem)
    requires forall t: Table :: IsUtf8(logs[t])
    ensures ReplayInOrder(c, logs, m, AllTables()).2
    ensures ReplayInOrder(c, logs, m, AllTables()).0 == Replayed(c, logs, m)
  {
    AllTablesAre(Profiles);
    hide *;
    forall t: Table
      ensures ReplayInOrder(c, logs, m, AllTables()).2
      ensures ReplayInOrder(c, logs, m, AllTables()).0[t] == Replayed(c, logs, m)[t]
    {
      AllTablesAre(t);
      ReplayInOrderAt(c, logs, m, AllTables(), t);
      ReplayedAt(c, logs, m, t);
    }
    assert ReplayInOrder(c, logs, m, AllTables()).2 by {
      ReplayInOrderAt(c, logs, m, AllTables(), Profiles);
    }
    SameTables(ReplayInOrder(c, logs, m, AllTables()).0, Replayed(c, logs, m));
  }

  /** A replay broken off anywhere - of each log, some first records replayed - and then
      repeated in full leaves what one full replay leaves. */
  lemma InterruptedReplay(c: Codec, logs: Files, part: Files, m: Mem)
    requires Faithful(c) && forall t: Table :: ValidRecords(c, t, part[t]) <= ValidRecords(c, t, logs[t])
    ensures Replayed(c, logs, Replayed(c, part, m)) == Replayed(c, logs, m)
  {
    hide ValidRecords, PutAll, Faithful;
    forall t: Table
      ensures Replayed(c, logs, Replayed(c, part, m))[t] == Replayed(c, logs, m)[t]
    {
      var prefix, whole := ValidRecords(c, t, part[t]), ValidRecords(c, t, logs[t]);
      assert prefix + whole[|prefix|..] == whole;
      LogRecords(c, t, logs[t]);
      ReplaySurvivesInterruption(t, m[t], prefix, whole[|prefix|..]);
    }
    SameTables(Replayed(c, logs, Replayed(c, part, m)), Replayed(c, logs, m));
  }

  lemma LogRecords(c: Codec, t: Table, text: seq<byte>)
    requires Faithful(c)
    ensures AllOf(t, ValidRecords(c, t, text))
  {
    ParseLinesSound(c, t, Lines(Complete(text)));
  }

  /** Replayed into an empty store, the logs give what this store answers from. */
  lemma ReplayIsReopening(c: Codec, s: Store)
    ensures Replayed(c, FilesOf(s), EmptyMem()) == Durable(c, s)
  {
    forall t: Table
      ensures Replayed(c, FilesOf(s), EmptyMem())[t] == Durable(c, s)[t]
    {
      hide PutAll, ValidRecords;
    }
    hide *;
    SameTables(Replayed(c, FilesOf(s), EmptyMem()), Durable(c, s));
  }
}
