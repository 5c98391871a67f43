// What a record's own lookup answers after any run, from the run's operations alone:
// which accepted write of its key is the one that is found.
module Histories {
  import opened Keys
  import opened Records
  import opened LogText
  import opened Selection
  import opened Retention
  import opened StoreModel
  import opened StoreTheorems
  import opened SqlStore

  // ----- keys and lookups, constructor by constructor -----

  /** Two records that have one primary key in one table. */
  predicate SameKey(a: Record, b: Record) {
    || (a.Profile? && b.Profile? && a.id == b.id)
    || (a.Snapshot? && b.Snapshot? && a.id == b.id)
    || (a.Manifest? && b.Manifest? && a.id == b.id)
    || (a.Plan? && b.Plan? && a.id == b.id)
    || (a.Receipt? && b.Receipt? && a.id == b.id)
    || (a.Partition? && b.Partition? && a.receiptId == b.receiptId && a.index == b.index)
    || (a.Export? && b.Export? && a.id == b.id)
    || (a.Cost? && b.Cost? && a.id == b.id)
    || (a.Bundle? && b.Bundle? && a.id == b.id)
    || (a.Audit? && b.Audit? && a.id == b.id)
  }

  /** The lookup by the record's key in its table. */
  function AskFor(r: Record): Query {
    match r
    case Profile(id, _) => ById(Profiles, Key(id, 0))
    case Snapshot(id, _, _, _, _, _) => ById(CatalogSnapshots, Key(id, 0))
    case Manifest(id, _) => ById(DatasetManifests, Key(id, 0))
    case Plan(id, _) => ById(QueryPlans, Key(id, 0))
    case Receipt(id, _, _, _, _, _, _) => ById(QueryReceipts, Key(id, 0))
    case Partition(receiptId, index, _) => ById(PartitionMetadata, Key(receiptId, index))
    case Export(id, _, _, _) => ById(Exports, Key(id, 0))
    case Cost(id, _, _, _) => ById(CostHistory, Key(id, 0))
    case Bundle(id, _) => ById(ReplayBundles, Key(id, 0))
    case Audit(id, _, _) => ById(AuditLog, Key(id, 0))
  }

  /** The answer to the lookup after a run. */
  function Found(c: Codec, s: Store, ops: seq<Op>, r: Record): Answer {
    StoreStep(c, StoreRun(c, s, ops).0, Ask(AskFor(r))).1
  }

  function MemFound(c: Codec, mem: Mem, ops: seq<Op>, r: Record): Answer {
    MemStep(c, MemRun(c, mem, ops).0, Ask(AskFor(r))).1
  }

  /** The operation writes, and gets accepted, a record of this key. */
  predicate WritesKey(c: Codec, op: Op, r: Record) {
    op.WriteRecord? && c.accepts(op.record) && SameKey(op.record, r)
  }

  // ----- one operation -----

  function Held(mem: Mem, r: Record): seq<Record> {
    if KeyOf(r) in mem[TableOf(r)] then [mem[TableOf(r)][KeyOf(r)]] else []
  }

  lemma AskForIs(r: Record)
    ensures AskFor(r) == ById(TableOf(r), KeyOf(r))
  {
  }

  lemma AskIsHeld(c: Codec, mem: Mem, r: Record)
    ensures MemStep(c, mem, Ask(AskFor(r))).1 == Rows(Held(mem, r))
    ensures AskFor(r) == ById(TableOf(r), KeyOf(r))
  {
    hide AskFor, TableOf, KeyOf;
    AskForIs(r);
  }

  lemma SameKeyIs(a: Record, b: Record)
    ensures SameKey(a, b) <==> TableOf(a) == TableOf(b) && KeyOf(a) == KeyOf(b)
  {
  }

  /** Tables that keep the last record of a key. */
  predicate KeepsLast(r: Record) {
    r.Profile? || r.Manifest? || r.Plan? || r.Partition?
  }

  lemma KeepsLastIs(r: Record)
    ensures LastWins(TableOf(r)) <==> KeepsLast(r)
  {
  }

  lemma WriteHolds(c: Codec, mem: Mem, w: Record, r: Record)
    ensures Held(MemWrite(c, mem, w), r)
         == if c.accepts(w) && SameKey(w, r) then (if KeepsLast(r) || Held(mem, r) == [] then [w] else Held(mem, r))
            else Held(mem, r)
  {
    SameKeyIs(w, r);
    KeepsLastIs(w);
    KeepsLastIs(r);
    hide SameKey, TableOf, KeyOf, LastWins, KeepsLast;
    if c.accepts(w) {
      PutHolds(mem, w, r);
    }
  }

  lemma PutHolds(mem: Mem, w: Record, r: Record)
    ensures Held(mem[TableOf(w) := Put(mem[TableOf(w)], w)], r)
         == if TableOf(w) == TableOf(r) && KeyOf(w) == KeyOf(r) then
              (if LastWins(TableOf(w)) || Held(mem, r) == [] then [w] else Held(mem, r))
            else Held(mem, r)
  {
    hide TableOf, KeyOf, LastWins;
  }

  lemma RetentionHolds(mem: Mem, policy: RetentionPolicy, r: Record)
    ensures Held(MemRetain(mem, policy), r) in {Held(mem, r), []}
    ensures !r.Receipt? && !r.Snapshot? && !r.Partition? ==> Held(MemRetain(mem, policy), r) == Held(mem, r)
  {
    hide Newer, Evicted, KeyOf;
  }

  /** One operation, seen from one key: an accepted write of the key puts its record, or
      keeps the one that is there; retention may remove a receipt, a snapshot or a
      partition; nothing else touches it. */
  lemma StepHolds(c: Codec, mem: Mem, op: Op, r: Record)
    ensures var before, after := Held(mem, r), Held(MemStep(c, mem, op).0, r);
      if WritesKey(c, op, r) then after == (if KeepsLast(r) || before == [] then [op.record] else before)
      else if op.ApplyRetention? then
        after in {before, []} && (!r.Receipt? && !r.Snapshot? && !r.Partition? ==> after == before)
      else after == before
  {
    hide MemWrite, MemRetain, Held, MemAnswer, RetainCount, KeepsLast, SameKey;
    match op
    case WriteRecord(w) => WriteHolds(c, mem, w, r);
    case Ask(_) =>
    case CompactAll =>
    case ApplyRetention(policy) => RetentionHolds(mem, policy, r);
    case Reopen =>
  }

  // ----- runs, one operation longer -----

  lemma {:induction false} MemRunConcat(c: Codec, mem: Mem, a: seq<Op>, b: seq<Op>)
    ensures MemRun(c, mem, a + b).0 == MemRun(c, MemRun(c, mem, a).0, b).0
    decreases |a|
  {
    if a == [] {
      assert a + b == b;
    } else {
      assert (a + b)[1..] == a[1..] + b;
      hide MemStep;
      MemRunConcat(c, MemStep(c, mem, a[0]).0, a[1..], b);
    }
  }

  lemma MemRunNext(c: Codec, mem: Mem, ops: seq<Op>, n: nat)
    requires n < |ops|
    ensures MemRun(c, mem, ops[..n + 1]).0 == MemStep(c, MemRun(c, mem, ops[..n]).0, ops[n]).0
  {
    assert ops[..n + 1] == ops[..n] + [ops[n]];
    MemRunConcat(c, mem, ops[..n], [ops[n]]);
    hide MemStep;
    assert [ops[n]][1..] == [];
  }

  /** Once it is found, a record is found until a write of its key or retention takes its
      place. */
  lemma {:induction false} StaysFound(c: Codec, mem: Mem, ops: seq<Op>, start: nat, end: nat, r: Record, x: Record)
    requires start <= end <= |ops|
    requires MemFound(c, mem, ops[..start], r) == Rows([x])
    requires KeepsLast(r) ==> forall j :: start <= j < end ==> !WritesKey(c, ops[j], r)
    requires r.Receipt? || r.Snapshot? || r.Partition? ==>
      forall j :: start <= j < end && ops[j].ApplyRetention? ==> MemFound(c, mem, ops[..j + 1], r) != Rows([])
    ensures MemFound(c, mem, ops[..end], r) == Rows([x])
    decreases end - start
  {
    if start < end {
      var here := MemRun(c, mem, ops[..start]).0;
      AskIsHeld(c, here, r);
      AskIsHeld(c, MemStep(c, here, ops[start]).0, r);
      MemRunNext(c, mem, ops, start);
      StepHolds(c, here, ops[start], r);
      hide MemRun, MemStep, Held, WritesKey, AskFor;
      StaysFound(c, mem, ops, start + 1, end, r, x);
    }
  }

  /** A key that is not found is not found until it is written. */
  lemma {:induction false} StaysAbsent(c: Codec, mem: Mem, ops: seq<Op>, start: nat, end: nat, r: Record)
    requires start <= end <= |ops|
    requires MemFound(c, mem, ops[..start], r) == Rows([])
    requires forall j :: start <= j < end ==> !WritesKey(c, ops[j], r)
    ensures MemFound(c, mem, ops[..end], r) == Rows([])
    decreases end - start
  {
    if start < end {
      var here := MemRun(c, mem, ops[..start]).0;
      AskIsHeld(c, here, r);
      AskIsHeld(c, MemStep(c, here, ops[start]).0, r);
      MemRunNext(c, mem, ops, start);
      StepHolds(c, here, ops[start], r);
      hide MemRun, MemStep, Held, WritesKey, AskFor;
      StaysAbsent(c, mem, ops, start + 1, end, r);
    }
  }

  lemma WrittenIsFound(c: Codec, mem: Mem, ops: seq<Op>, i: nat, r: Record)
    requires i < |ops| && ops[i] == WriteRecord(r) && c.accepts(r)
    requires KeepsLast(r) || MemFound(c, mem, ops[..i], r) == Rows([])
    ensures MemFound(c, mem, ops[..i + 1], r) == Rows([r])
  {
    var here := MemRun(c, mem, ops[..i]).0;
    AskIsHeld(c, here, r);
    AskIsHeld(c, MemStep(c, here, ops[i]).0, r);
    MemRunNext(c, mem, ops, i);
    StepHolds(c, here, ops[i], r);
    SameKeyIs(r, r);
    hide MemRun, MemStep, Held, AskFor, SameKey;
  }

  // ----- the theorems, over the maps -----

  /** Profiles, manifests, plans and partitions: the last accepted record of a key is the
      one found; a partition for as long as retention leaves one. */
  lemma MemFindsLast(c: Codec, mem: Mem, ops: seq<Op>, i: nat, r: Record)
    requires i < |ops| && ops[i] == WriteRecord(r) && c.accepts(r)
    requires r.Profile? || r.Manifest? || r.Plan? || r.Partition?
    requires forall j :: i < j < |ops| ==> !WritesKey(c, ops[j], r)
    requires r.Partition? ==>
      forall j :: i < j < |ops| && ops[j].ApplyRetention? ==> MemFound(c, mem, ops[..j + 1], r) != Rows([])
    ensures MemFound(c, mem, ops, r) == Rows([r])
  {
    hide MemFound, WritesKey;
    WrittenIsFound(c, mem, ops, i, r);
    StaysFound(c, mem, ops, i + 1, |ops|, r, r);
    assert ops[..|ops|] == ops;
  }

  /** Snapshots, receipts, exports, costs, bundles and audit events: the first accepted
      record of a key is the one found; a snapshot or receipt for as long as retention
      leaves one. */
  lemma MemFindsFirst(c: Codec, mem: Mem, ops: seq<Op>, i: nat, r: Record)
    requires i < |ops| && ops[i] == WriteRecord(r) && c.accepts(r)
    requires r.Snapshot? || r.Receipt? || r.Export? || r.Cost? || r.Bundle? || r.Audit?
    requires MemFound(c, mem, [], r) == Rows([]) && forall j :: 0 <= j < i ==> !WritesKey(c, ops[j], r)
    requires r.Snapshot? || r.Receipt? ==>
      forall j :: i < j < |ops| && ops[j].ApplyRetention? ==> MemFound(c, mem, ops[..j + 1], r) != Rows([])
    ensures MemFound(c, mem, ops, r) == Rows([r])
  {
    hide MemFound, WritesKey;
    assert ops[..0] == [] && ops[..|ops|] == ops;
    StaysAbsent(c, mem, ops, 0, i, r);
    WrittenIsFound(c, mem, ops, i, r);
    StaysFound(c, mem, ops, i + 1, |ops|, r, r);
  }

  /** What was there before the run is found unless the run writes its key, or retention
      removes it. */
  lemma MemFindsEarlier(c: Codec, mem: Mem, ops: seq<Op>, r: Record, x: Record)
    requires MemFound(c, mem, [], r) == Rows([x])
    requires r.Profile? || r.Manifest? || r.Plan? || r.Partition? ==>
      forall j :: 0 <= j < |ops| ==> !WritesKey(c, ops[j], r)
    requires r.Receipt? || r.Snapshot? || r.Partition? ==>
      forall j :: 0 <= j < |ops| && ops[j].ApplyRetention? ==> MemFound(c, mem, ops[..j + 1], r) != Rows([])
    ensures MemFound(c, mem, ops, r) == Rows([x])
  {
    hide MemFound, WritesKey;
    assert ops[..0] == [] && ops[..|ops|] == ops;
    StaysFound(c, mem, ops, 0, |ops|, r, x);
  }

  /** A key never written is not found. */
  lemma MemFindsNothing(c: Codec, mem: Mem, ops: seq<Op>, r: Record)
    requires MemFound(c, mem, [], r) == Rows([])
    requires forall j :: 0 <= j < |ops| ==> !WritesKey(c, ops[j], r)
    ensures MemFound(c, mem, ops, r) == Rows([])
  {
    hide MemFound, WritesKey;
    assert ops[..0] == [] && ops[..|ops|] == ops;
    StaysAbsent(c, mem, ops, 0, |ops|, r);
  }

  // ----- the same over the file store and the SQL backend -----

  lemma FoundIsMem(c: Codec, s: Store, ops: seq<Op>, r: Record)
    requires Faithful(c) && Inv(c, s)
    ensures Found(c, s, ops, r) == MemFound(c, Durable(c, s), ops, r)
  {
    hide StoreRun, MemRun, StoreStep, MemStep, Durable, Inv, AskFor;
    RunsAgree(c, s, ops);
    StepAgrees(c, StoreRun(c, s, ops).0, Ask(AskFor(r)));
  }

  /** The last accepted profile, manifest, plan or partition of a key is what the file
      store answers, over every run; a partition for as long as retention leaves one. */
  lemma FindsLast(c: Codec, s: Store, ops: seq<Op>, i: nat, r: Record)
    requires Faithful(c) && Inv(c, s)
    requires i < |ops| && ops[i] == WriteRecord(r) && c.accepts(r)
    requires r.Profile? || r.Manifest? || r.Plan? || r.Partition?
    requires forall j :: i < j < |ops| ==> !WritesKey(c, ops[j], r)
    requires r.Partition? ==>
      forall j :: i < j < |ops| && ops[j].ApplyRetention? ==> Found(c, s, ops[..j + 1], r) != Rows([])
    ensures Found(c, s, ops, r) == Rows([r])
  {
    hide Found, MemFound, WritesKey, Inv, Faithful;
    forall j | i < j < |ops| && ops[j].ApplyRetention?
      ensures Found(c, s, ops[..j + 1], r) == MemFound(c, Durable(c, s), ops[..j + 1], r)
    {
      FoundIsMem(c, s, ops[..j + 1], r);
    }
    FoundIsMem(c, s, ops, r);
    MemFindsLast(c, Durable(c, s), ops, i, r);
  }

  /** The first accepted snapshot, receipt, export, cost, bundle or audit event of a key is
      what the file store answers, over every run; a snapshot or receipt for as long as
      retention leaves one. */
  lemma FindsFirst(c: Codec, s: Store, ops: seq<Op>, i: nat, r: Record)
    requires Faithful(c) && Inv(c, s)
    requires i < |ops| && ops[i] == WriteRecord(r) && c.accepts(r)
    requires r.Snapshot? || r.Receipt? || r.Export? || r.Cost? || r.Bundle? || r.Audit?
    requires Found(c, s, [], r) == Rows([]) && forall j :: 0 <= j < i ==> !WritesKey(c, ops[j], r)
    requires r.Snapshot? || r.Receipt? ==>
      forall j :: i < j < |ops| && ops[j].ApplyRetention? ==> Found(c, s, ops[..j + 1], r) != Rows([])
    ensures Found(c, s, ops, r) == Rows([r])
  {
    hide Found, MemFound, WritesKey, Inv, Faithful;
    forall j | i < j < |ops| && ops[j].ApplyRetention?
      ensures Found(c, s, ops[..j + 1], r) == MemFound(c, Durable(c, s), ops[..j + 1], r)
    {
      FoundIsMem(c, s, ops[..j + 1], r);
    }
    FoundIsMem(c, s, [], r);
    FoundIsMem(c, s, ops, r);
    MemFindsFirst(c, Durable(c, s), ops, i, r);
  }

  /** What the directory held is what the file store answers, over every run that does not
      replace or remove it. */
  lemma FindsEarlier(c: Codec, s: Store, ops: seq<Op>, r: Record, x: Record)
    requires Faithful(c) && Inv(c, s) && Found(c, s, [], r) == Rows([x])
    requires r.Profile? || r.Manifest? || r.Plan? || r.Partition? ==>
      forall j :: 0 <= j < |ops| ==> !WritesKey(c, ops[j], r)
    requires r.Receipt? || r.Snapshot? || r.Partition? ==>
      forall j :: 0 <= j < |ops| && ops[j].ApplyRetention? ==> Found(c, s, ops[..j + 1], r) != Rows([])
    ensures Found(c, s, ops, r) == Rows([x])
  {
    hide Found, MemFound, WritesKey, Inv, Faithful;
    forall j | 0 <= j < |ops| && ops[j].ApplyRetention?
      ensures Found(c, s, ops[..j + 1], r) == MemFound(c, Durable(c, s), ops[..j + 1], r)
    {
      FoundIsMem(c, s, ops[..j + 1], r);
    }
    FoundIsMem(c, s, [], r);
    FoundIsMem(c, s, ops, r);
    MemFindsEarlier(c, Durable(c, s), ops, r, x);
  }

  /** In a new directory a key never written is not found, over every run. */
  lemma FindsNothing(c: Codec, files: Files, ops: seq<Op>, r: Record)
    requires Faithful(c) && forall t: Table :: files[t] == []
    requires forall j :: 0 <= j < |ops| ==> !WritesKey(c, ops[j], r)
    ensures Found(c, Open(files), ops, r) == Rows([]) && Found(c, Open(files), [], r) == Rows([])
  {
    EmptyDirectory(c, files);
    EmptyHolds(c, r);
    hide *;
    FoundIsMem(c, Open(files), ops, r);
    FoundIsMem(c, Open(files), [], r);
    MemFindsNothing(c, EmptyMem(), ops, r);
  }

  lemma EmptyHolds(c: Codec, r: Record)
    ensures MemFound(c, EmptyMem(), [], r) == Rows([])
  {
    AskIsHeld(c, EmptyMem(), r);
  }

  /** The SQL backend finds what the maps find, of the records that its columns hold. */
  lemma SqlFound(c: Codec, bodyNumbers: string -> seq<nat>, mem: Mem, ops: seq<Op>, r: Record, answers: seq<Answer>)
    requires MemKeyed(mem) && SqlRun(c, bodyNumbers, RowsOf(mem), ops + [Ask(AskFor(r))], answers)
    ensures |answers| == |ops| + 1 && answers[|ops|] == MemFound(Fitting(c, bodyNumbers), mem, ops, r)
  {
    hide *;
    SqlRunsAgree(c, bodyNumbers, mem, ops + [Ask(AskFor(r))], answers);
    LastAnswer(Fitting(c, bodyNumbers), mem, ops, Ask(AskFor(r)));
    MemFoundIs(Fitting(c, bodyNumbers), mem, ops, r);
  }

  lemma MemFoundIs(c: Codec, mem: Mem, ops: seq<Op>, r: Record)
    ensures MemFound(c, mem, ops, r) == MemStep(c, MemRun(c, mem, ops).0, Ask(AskFor(r))).1
  {
    hide MemStep, MemRun, AskFor;
  }

  lemma {:induction false} LastAnswer(c: Codec, mem: Mem, ops: seq<Op>, op: Op)
    ensures var answers := MemRun(c, mem, ops + [op]).1;
      |answers| == |ops| + 1 && answers[|ops|] == MemStep(c, MemRun(c, mem, ops).0, op).1
    decreases |ops|
  {
    hide MemStep;
    if ops == [] {
      assert [] + [op] == [op] && [op][1..] == [];
    } else {
      assert (ops + [op])[1..] == ops[1..] + [op];
      LastAnswer(c, MemStep(c, mem, ops[0]).0, ops[1..], op);
    }
  }
}
