// Compaction and retention over whole runs: compaction costs amortised-constant
// work and changes no answer; retention removes exactly what it counts.
module Maintenance {
  import opened Keys
  import opened Records
  import opened LogText
  import opened Utf8
  import opened Selection
  import opened Retention
  import opened StoreModel
  import opened StoreTheorems

  // ----- the cost of lazy compaction -----

  /** The superseded lines of a table's log. */
  function Superseded(c: Codec, t: Table, s: TableState): int {
    |ValidRecords(c, t, s.text)| - |Contents(c, t, s.text)|
  }

  /** The lines that lazy compaction writes while one record is written. */
  function LazilyRewritten(c: Codec, t: Table, s: TableState, r: Record): nat {
    if !c.accepts(r) || !Compactable(t) then 0
    else
      var appended := AppendRecord(c, LoadTable(c, t, s), r);
      if CompactsNow(appended.lines, |appended.mem|) then |appended.mem| else 0
  }

  function StepRewritten(c: Codec, s: Store, op: Op, t: Table): nat {
    if op.WriteRecord? && TableOf(op.record) == t then LazilyRewritten(c, t, s[t], op.record) else 0
  }

  function RunRewritten(c: Codec, s: Store, ops: seq<Op>, t: Table): nat
    decreases |ops|
  {
    if ops == [] then 0
    else StepRewritten(c, s, ops[0], t) + RunRewritten(c, StoreStep(c, s, ops[0]).0, ops[1..], t)
  }

  predicate Upserts(c: Codec, op: Op, t: Table) {
    op.WriteRecord? && TableOf(op.record) == t && c.accepts(op.record)
  }

  function CountUpserts(c: Codec, ops: seq<Op>, t: Table): nat {
    if ops == [] then 0 else (if Upserts(c, ops[0], t) then 1 else 0) + CountUpserts(c, ops[1..], t)
  }

  lemma SupersededOf(c: Codec, t: Table, s: TableState)
    requires Faithful(c) && LoadedOk(c, t, s)
    ensures Superseded(c, t, s) == s.lines - |s.mem| >= 0
  {
    LoadedMapOk(c, t, s);
  }

  /** A write is paid for by the superseded line it may add and by those that
      compaction removes: at least as many as the lines it writes. */
  lemma WriteCost(c: Codec, t: Table, s: TableState, r: Record)
    requires Faithful(c) && TableInv(c, t, s) && TableOf(r) == t
    ensures LazilyRewritten(c, t, s, r) + Superseded(c, t, WriteTable(c, t, s, r))
         <= Superseded(c, t, s) + if c.accepts(r) then 1 else 0
  {
    var loaded := LoadTable(c, t, s);
    var written := WriteTable(c, t, s, r);
    LoadKeeps(c, t, s);
    WriteKeeps(c, s, r);
    SupersededOf(c, t, loaded);
    SupersededOf(c, t, written);
    PutSize(loaded.mem, r);
    SameTextSuperseded(c, t, s, loaded);
    hide Superseded, Put, TableInv, LoadTable;
  }

  lemma SameTextSuperseded(c: Codec, t: Table, a: TableState, b: TableState)
    requires a.text == b.text
    ensures Superseded(c, t, a) == Superseded(c, t, b)
  {
  }

  /** Under the invariant, loading in order loads each of the tables. */
  lemma {:induction false} LoadInOrderAt(c: Codec, s: Store, ts: seq<Table>, t: Table)
    requires Inv(c, s)
    ensures LoadInOrder(c, s, ts).0[t] == if t in ts then LoadTable(c, t, s[t]) else s[t]
    decreases |ts|
  {
    if ts != [] {
      LoadInv(c, s, ts[0]);
      LoadAt(c, s, ts[0], t);
      LoadTwice(c, t, s[t]);
      hide Load, Inv, Loads, LoadTable, Durable;
      LoadInOrderAt(c, Load(c, s, ts[0]), ts[1..], t);
      assert t in ts <==> t == ts[0] || t in ts[1..];
    }
  }

  lemma LoadTwice(c: Codec, t: Table, s: TableState)
    ensures LoadTable(c, t, LoadTable(c, t, s)) == LoadTable(c, t, s)
  {
    hide ValidRecords, IsUtf8, PutAll;
  }

  lemma UpsertIs(t: Table)
    ensures t in UpsertTables() <==> Compactable(t)
    ensures Compactable(t) <==> t == Profiles || t == DatasetManifests || t == QueryPlans
  {
    assert Profiles in UpsertTables() && DatasetManifests in UpsertTables() && QueryPlans in UpsertTables();
  }

  /** Compaction on demand, seen from one upsert table. */
  lemma CompactAt(c: Codec, s: Store, t: Table)
    requires Inv(c, s) && Compactable(t)
    ensures Compact(c, s).0[t] == CompactTable(c, LoadTable(c, t, s[t]))
  {
    LoadInOrderInv(c, s, UpsertTables());
    LoadInOrderAt(c, s, UpsertTables(), t);
    var s1 := LoadInOrder(c, s, UpsertTables()).0;
    var s2 := CompactOne(c, s1, Profiles);
    hide *;
    CompactIs(c, s);
    UpsertIs(t);
    CompactOneAt(c, s1, Profiles, t);
    CompactOneAt(c, s2, DatasetManifests, t);
    CompactOneAt(c, CompactOne(c, s2, DatasetManifests), QueryPlans, t);
  }

  /** No other operation adds superseded lines to an upsert table. */
  lemma OtherCost(c: Codec, s: Store, op: Op, t: Table)
    requires Faithful(c) && Inv(c, s) && Compactable(t)
    requires op.WriteRecord? ==> TableOf(op.record) != t
    ensures Superseded(c, t, StoreStep(c, s, op).0[t]) <= Superseded(c, t, s[t])
  {
    InvAt(c, s, t);
    if op.CompactAll? {
      var loaded := LoadTable(c, t, s[t]);
      CompactAt(c, s, t);
      LoadKeeps(c, t, s[t]);
      CompactKeeps(c, t, loaded);
      SupersededOf(c, t, loaded);
      SupersededOf(c, t, CompactTable(c, loaded));
      SameTextSuperseded(c, t, s[t], loaded);
      hide Compact, Superseded, LoadTable, TableInv, Inv;
    } else {
      OtherText(c, s, op, t);
      SameTextSuperseded(c, t, s[t], StoreStep(c, s, op).0[t]);
    }
  }

  lemma OtherText(c: Codec, s: Store, op: Op, t: Table)
    requires Inv(c, s) && Compactable(t) && !op.CompactAll?
    requires op.WriteRecord? ==> TableOf(op.record) != t
    ensures StoreStep(c, s, op).0[t].text == s[t].text
  {
    assert !Evictable(t);
    hide Write, Load, Retain, Open, FilesOf, MemAnswer, Compactable, MemOf, Inv, Evictable, Loads;
    match op
    case WriteRecord(r) => WriteElsewhere(c, s, r, t);
    case Ask(q) => LoadedText(c, s, QueryTable(q), t);
    case ApplyRetention(policy) => RetainedText(c, s, policy, t);
    case Reopen => ReopenedText(s, t);
  }

  lemma WriteElsewhere(c: Codec, s: Store, r: Record, t: Table)
    requires TableOf(r) != t
    ensures Write(c, s, r)[t] == s[t]
  {
    hide WriteTable;
  }

  lemma LoadedText(c: Codec, s: Store, u: Table, t: Table)
    ensures Load(c, s, u)[t].text == s[t].text
  {
    hide ValidRecords, PutAll, IsUtf8;
  }

  lemma ReopenedText(s: Store, t: Table)
    ensures Open(FilesOf(s))[t].text == s[t].text
  {
  }

  predicate Evictable(t: Table) {
    t.QueryReceipts? || t.PartitionMetadata? || t.CatalogSnapshots?
  }

  lemma {:induction false} LoadInOrderElsewhere(c: Codec, s: Store, ts: seq<Table>, t: Table)
    requires t !in ts
    ensures LoadInOrder(c, s, ts).0[t] == s[t]
    decreases |ts|
  {
    if ts != [] && Loads(s[ts[0]]) {
      assert t != ts[0] && t !in ts[1..];
      LoadAt(c, s, ts[0], t);
      hide Load, Loads;
      LoadInOrderElsewhere(c, Load(c, s, ts[0]), ts[1..], t);
    }
  }

  /** Retention leaves every other table's log and map as they are, the audit log among them. */
  lemma RetainedText(c: Codec, s: Store, policy: RetentionPolicy, t: Table)
    requires !Evictable(t)
    ensures Retain(c, s, policy).0[t] == s[t]
  {
    RetentionTablesAre(policy, t);
    assert !RetentionTouches(policy, t);
    LoadInOrderElsewhere(c, s, RetentionTables(policy), t);
    hide LoadInOrder, RetentionTables, RetainLoaded, RetentionTouches, RetainCount, Evictable;
    UntouchedByRetention(c, LoadInOrder(c, s, RetentionTables(policy)).0, policy, t);
  }

  lemma StepCost(c: Codec, s: Store, op: Op, t: Table)
    requires Faithful(c) && Inv(c, s) && Compactable(t)
    ensures StepRewritten(c, s, op, t) + Superseded(c, t, StoreStep(c, s, op).0[t])
         <= Superseded(c, t, s[t]) + if Upserts(c, op, t) then 1 else 0
  {
    InvAt(c, s, t);
    hide Superseded, LazilyRewritten, WriteTable, TableInv, Inv, Compact, Retain, Load, TableOf;
    if op.WriteRecord? && TableOf(op.record) == t {
      WriteCost(c, t, s[t], op.record);
    } else {
      OtherCost(c, s, op, t);
    }
  }

  /** Lazy compaction is amortised-constant: over any run, the lines it writes to a
      table, and the superseded lines left at the end, are together at most the
      upserts made and the superseded lines there at the start. */
  lemma {:induction false} LazyCompactionAmortised(c: Codec, s: Store, ops: seq<Op>, t: Table)
    requires Faithful(c) && Inv(c, s) && Compactable(t)
    ensures RunRewritten(c, s, ops, t) + Superseded(c, t, StoreRun(c, s, ops).0[t])
         <= CountUpserts(c, ops, t) + Superseded(c, t, s[t])
    ensures Superseded(c, t, StoreRun(c, s, ops).0[t]) >= 0
    decreases |ops|
  {
    if ops == [] {
      InvAt(c, s, t);
      ContentsOk(c, t, s[t].text);
    } else {
      StepAgrees(c, s, ops[0]);
      StepCost(c, s, ops[0], t);
      hide StoreStep, Superseded, StepRewritten, Inv, Upserts;
      LazyCompactionAmortised(c, StoreStep(c, s, ops[0]).0, ops[1..], t);
    }
  }

  /** After an upsert the log is short: fewer valid lines than the records and 64, or
      than twice the records. */
  lemma UpsertLeavesShortLog(c: Codec, s: Store, r: Record)
    requires Faithful(c) && Inv(c, s) && c.accepts(r) && Compactable(TableOf(r))
    ensures var after := Write(c, s, r)[TableOf(r)];
      && |ValidRecords(c, TableOf(r), after.text)| == after.lines
      && |Contents(c, TableOf(r), after.text)| == |after.mem|
      && (after.lines < |after.mem| + 64 || after.lines < 2 * |after.mem|)
  {
    var t := TableOf(r);
    InvAt(c, s, t);
    InvLoads(c, s, t);
    WriteKeeps(c, s[t], r);
    WrittenShort(c, t, s[t], r);
    LoadedLines(c, t, WriteTable(c, t, s[t], r));
    LoadedIsLoaded(c, t, WriteTable(c, t, s[t], r));
    hide Contents, ValidRecords, WriteTable, LoadedOk;
  }

  lemma WrittenShort(c: Codec, t: Table, s: TableState, r: Record)
    requires Loads(s) && c.accepts(r) && Compactable(t)
    ensures var after := WriteTable(c, t, s, r);
      after.lines < |after.mem| + 64 || after.lines < 2 * |after.mem|
  {
    hide ValidRecords, EncodeAll, Values, Put, EncodedLine, IsUtf8, PutAll;
  }

  /** After compaction on demand an upsert table's log has one line a record. */
  lemma CompactionIsCanonical(c: Codec, s: Store, t: Table)
    requires Faithful(c) && Inv(c, s) && Compactable(t)
    ensures Compact(c, s).1
    ensures var after := Compact(c, s).0[t];
      |ValidRecords(c, t, after.text)| == after.lines == |after.mem| == |Contents(c, t, after.text)|
  {
    InvAt(c, s, t);
    var loaded := LoadTable(c, t, s[t]);
    LoadKeeps(c, t, s[t]);
    CompactInv(c, s);
    CompactAt(c, s, t);
    CompactKeeps(c, t, loaded);
    LoadedMapOk(c, t, loaded);
    LoadedIsLoaded(c, t, CompactTable(c, loaded));
    hide Contents, ValidRecords, LoadTable, TableInv, Inv, Compact;
    LoadedLines(c, t, CompactTable(c, loaded));
  }

  lemma LoadedLines(c: Codec, t: Table, s: TableState)
    requires LoadedOk(c, t, s)
    ensures s.lines == |ValidRecords(c, t, s.text)|
  {
  }

  // ----- maintenance changes no answer -----

  predicate IsMaintenance(op: Op) {
    op.CompactAll? || op.Reopen?
  }

  function WithoutMaintenance(ops: seq<Op>): seq<Op> {
    if ops == [] then []
    else (if IsMaintenance(ops[0]) then [] else [ops[0]]) + WithoutMaintenance(ops[1..])
  }

  /** The answers to the operations that are not maintenance. */
  function AnswersTo(ops: seq<Op>, answers: seq<Answer>): seq<Answer>
    requires |ops| == |answers|
  {
    if ops == [] then []
    else (if IsMaintenance(ops[0]) then [] else [answers[0]]) + AnswersTo(ops[1..], answers[1..])
  }

  lemma {:induction false} MemRunWithoutMaintenance(c: Codec, mem: Mem, ops: seq<Op>)
    ensures |MemRun(c, mem, ops).1| == |ops|
    ensures MemRun(c, mem, WithoutMaintenance(ops)).0 == MemRun(c, mem, ops).0
    ensures MemRun(c, mem, WithoutMaintenance(ops)).1 == AnswersTo(ops, MemRun(c, mem, ops).1)
    decreases |ops|
  {
    if ops != [] {
      var next := MemStep(c, mem, ops[0]);
      if IsMaintenance(ops[0]) {
        MaintenanceIsNeutral(c, mem, ops[0]);
      }
      hide MemStep, IsMaintenance;
      MemRunWithoutMaintenance(c, next.0, ops[1..]);
      var kept := WithoutMaintenance(ops[1..]);
      var answers := MemRun(c, mem, ops).1;
      assert answers == [next.1] + MemRun(c, next.0, ops[1..]).1;
      assert answers[1..] == MemRun(c, next.0, ops[1..]).1;
      if IsMaintenance(ops[0]) {
        assert [] + kept == kept;
        assert AnswersTo(ops, answers) == [] + AnswersTo(ops[1..], answers[1..]);
      } else {
        assert ([ops[0]] + kept)[1..] == kept;
      }
    }
  }

  lemma MaintenanceIsNeutral(c: Codec, mem: Mem, op: Op)
    requires IsMaintenance(op)
    ensures MemStep(c, mem, op).0 == mem
  {
  }

  /** Dropping every compaction and every reopening from a run changes neither the
      answers to the other operations nor the tables at the end. */
  lemma MaintenanceIsInvisible(c: Codec, s: Store, ops: seq<Op>)
    requires Faithful(c) && Inv(c, s)
    ensures |StoreRun(c, s, ops).1| == |ops|
    ensures StoreRun(c, s, WithoutMaintenance(ops)).1 == AnswersTo(ops, StoreRun(c, s, ops).1)
    ensures Durable(c, StoreRun(c, s, WithoutMaintenance(ops)).0) == Durable(c, StoreRun(c, s, ops).0)
  {
    RunsAgree(c, s, ops);
    RunsAgree(c, s, WithoutMaintenance(ops));
    hide StoreRun, MemRun, Durable, Inv, WithoutMaintenance, AnswersTo;
    MemRunWithoutMaintenance(c, Durable(c, s), ops);
  }

  // ----- the tables that are only appended to -----

  /** Exports, costs, replay bundles and the audit log: no operation rewrites their logs. */
  predicate AppendOnly(t: Table) {
    t == Exports || t == CostHistory || t == ReplayBundles || t == AuditLog
  }

  /** Every record stays under its key. */
  ghost predicate Extends(a: TableMap, b: TableMap) {
    forall k :: k in a ==> k in b && b[k] == a[k]
  }

  lemma CompactElsewhere(c: Codec, s: Store, t: Table)
    requires !Compactable(t)
    ensures Compact(c, s).0[t] == s[t]
  {
    hide *;
    UpsertIs(t);
    LoadInOrderElsewhere(c, s, UpsertTables(), t);
    var s1 := LoadInOrder(c, s, UpsertTables()).0;
    var s2 := CompactOne(c, s1, Profiles);
    CompactIs(c, s);
    CompactOneAt(c, s1, Profiles, t);
    CompactOneAt(c, s2, DatasetManifests, t);
    CompactOneAt(c, CompactOne(c, s2, DatasetManifests), QueryPlans, t);
  }

  lemma AppendedText(c: Codec, t: Table, s: TableState, r: Record)
    requires !Compactable(t)
    ensures s.text <= WriteTable(c, t, s, r).text
  {
    hide ValidRecords, PutAll, Put, IsUtf8, EncodedLine;
  }

  lemma WriteAppends(c: Codec, s: Store, r: Record, t: Table)
    requires AppendOnly(t)
    ensures s[t].text <= Write(c, s, r)[t].text
  {
    AppendedText(c, t, s[t], r);
    hide WriteTable;
  }

  lemma StepAppends(c: Codec, s: Store, op: Op, t: Table)
    requires AppendOnly(t)
    ensures s[t].text <= StoreStep(c, s, op).0[t].text
  {
    assert !Evictable(t) && !Compactable(t);
    hide Write, Load, Retain, Compact, Open, FilesOf, MemAnswer, MemOf, Loads, Evictable, Compactable, AppendOnly;
    match op
    case WriteRecord(r) => WriteAppends(c, s, r, t);
    case Ask(q) => LoadedText(c, s, QueryTable(q), t);
    case CompactAll => CompactElsewhere(c, s, t);
    case ApplyRetention(policy) => RetainedText(c, s, policy, t);
    case Reopen => ReopenedText(s, t);
  }

  /** An append-only log, the audit log among them, only grows: whatever a run does, the
      bytes there at its start are the first of those at its end. */
  lemma {:induction false} LogsOnlyGrow(c: Codec, s: Store, ops: seq<Op>, t: Table)
    requires AppendOnly(t)
    ensures s[t].text <= StoreRun(c, s, ops).0[t].text
    decreases |ops|
  {
    if ops != [] {
      StepAppends(c, s, ops[0], t);
      hide StoreStep, AppendOnly;
      LogsOnlyGrow(c, StoreStep(c, s, ops[0]).0, ops[1..], t);
    }
  }

  lemma StepExtends(c: Codec, mem: Mem, op: Op, t: Table)
    requires AppendOnly(t)
    ensures Extends(mem[t], MemStep(c, mem, op).0[t])
  {
    hide Kept, Evicted, WithoutReceipts, MemAnswer;
  }

  lemma {:induction false} RunExtends(c: Codec, mem: Mem, ops: seq<Op>, t: Table)
    requires AppendOnly(t)
    ensures Extends(mem[t], MemRun(c, mem, ops).0[t])
    decreases |ops|
  {
    if ops != [] {
      StepExtends(c, mem, ops[0], t);
      hide MemStep, AppendOnly;
      RunExtends(c, MemStep(c, mem, ops[0]).0, ops[1..], t);
    }
  }

  /** No record of the audit log changes or goes: through any run the log's bytes are
      kept, and each record that a reopen finds at the start, a reopen finds at the end. */
  lemma AuditLogKeepsEverything(c: Codec, s: Store, ops: seq<Op>)
    requires Faithful(c) && Inv(c, s)
    ensures s[AuditLog].text <= StoreRun(c, s, ops).0[AuditLog].text
    ensures Extends(Durable(c, s)[AuditLog], Durable(c, StoreRun(c, s, ops).0)[AuditLog])
  {
    LogsOnlyGrow(c, s, ops, AuditLog);
    hide StoreRun, MemRun, Durable, Inv, Extends;
    RunsAgree(c, s, ops);
    RunExtends(c, Durable(c, s), ops, AuditLog);
  }

  lemma WriteThenRun(c: Codec, s: Store, r: Record, ops: seq<Op>)
    ensures StoreRun(c, s, [WriteRecord(r)] + ops).0 == StoreRun(c, Write(c, s, r), ops).0
  {
    assert ([WriteRecord(r)] + ops)[1..] == ops;
    hide Write, Loads;
  }

  lemma AuditIsKept(r: Record, before: TableMap, after: TableMap)
    requires r.Audit? && Extends(Put(before, r), after)
    ensures KeyOf(r) in after && after[KeyOf(r)] == if KeyOf(r) in before then before[KeyOf(r)] else r
  {
    assert KeyOf(r) in Put(before, r);
  }

  lemma AuditIsPut(c: Codec, mem: Mem, r: Record)
    requires r.Audit? && c.accepts(r)
    ensures MemWrite(c, mem, r)[AuditLog] == Put(mem[AuditLog], r)
  {
    hide Put;
  }

  /** An audit record, once written, is there for good: after any further run a reopen
      finds it, or the one that its key held before it. */
  lemma AuditRecordStays(c: Codec, s: Store, r: Record, ops: seq<Op>)
    requires Faithful(c) && Inv(c, s) && r.Audit? && c.accepts(r)
    ensures var before, after := Durable(c, s)[AuditLog], Durable(c, StoreRun(c, s, [WriteRecord(r)] + ops).0)[AuditLog];
      && KeyOf(r) in after
      && after[KeyOf(r)] == if KeyOf(r) in before then before[KeyOf(r)] else r
  {
    hide *;
    var after := Durable(c, StoreRun(c, s, [WriteRecord(r)] + ops).0);
    WriteInv(c, s, r);
    AuditIsPut(c, Durable(c, s), r);
    WriteThenRun(c, s, r, ops);
    AuditLogKeepsEverything(c, Write(c, s, r), ops);
    AuditIsKept(r, Durable(c, s)[AuditLog], after[AuditLog]);
  }

  // ----- what retention does to the tables -----

  lemma KeptAgain(t: Table, m: TableMap, max: nat)
    requires Keyed(t, m)
    ensures Kept(Kept(m, max), max) == Kept(m, max) && Evicted(Kept(m, max), max) == {}
  {
    RetainTwice(t, m, max);
    hide Kept;
  }

  /** The count is the drop in receipts and snapshots. */
  lemma RetentionCountsWhatItRemoves(mem: Mem, policy: RetentionPolicy)
    ensures RetainCount(mem, policy)
         == (|mem[QueryReceipts]| - |RetainedTable(mem, policy, QueryReceipts)|)
            + (|mem[CatalogSnapshots]| - |RetainedTable(mem, policy, CatalogSnapshots)|)
  {
    hide Kept, Evicted;
    if policy.maxReceiptsPerProfile.Some? {
      EvictedSize(mem[QueryReceipts], policy.maxReceiptsPerProfile.value);
    }
    if policy.maxSnapshotsPerScope.Some? {
      EvictedSize(mem[CatalogSnapshots], policy.maxSnapshotsPerScope.value);
    }
  }

  /** A partition goes exactly when its receipt does; those that stay are unchanged. */
  lemma PartitionsFollowReceipts(mem: Mem, policy: RetentionPolicy, k: Key)
    ensures k in RetainedTable(mem, policy, PartitionMetadata) <==>
              k in mem[PartitionMetadata]
              && (Key(k.id, 0) in mem[QueryReceipts] ==> Key(k.id, 0) in RetainedTable(mem, policy, QueryReceipts))
    ensures k in RetainedTable(mem, policy, PartitionMetadata) ==>
              RetainedTable(mem, policy, PartitionMetadata)[k] == mem[PartitionMetadata][k]
  {
    hide Kept;
  }

  /** A second call evicts nothing and changes nothing. */
  lemma RetentionIsIdempotent(mem: Mem, policy: RetentionPolicy)
    requires Keyed(QueryReceipts, mem[QueryReceipts]) && Keyed(CatalogSnapshots, mem[CatalogSnapshots])
    ensures RetainCount(MemRetain(mem, policy), policy) == 0
    ensures MemRetain(MemRetain(mem, policy), policy) == MemRetain(mem, policy)
  {
    var after := MemRetain(mem, policy);
    assert RetainCount(after, policy) == 0 by {
      hide Kept, Evicted, Keyed;
      if policy.maxReceiptsPerProfile.Some? {
        KeptAgain(QueryReceipts, mem[QueryReceipts], policy.maxReceiptsPerProfile.value);
      }
      if policy.maxSnapshotsPerScope.Some? {
        KeptAgain(CatalogSnapshots, mem[CatalogSnapshots], policy.maxSnapshotsPerScope.value);
      }
    }
    hide RetainedTable, RetainCount;
    forall t: Table
      ensures RetainedTable(after, policy, t) == after[t]
    {
      NothingEvicted(after, policy, t);
    }
    SameTables(MemRetain(after, policy), after);
  }
}
