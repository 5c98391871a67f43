// The SQL backend: tables are sets of rows, and each statement is what SQLite says
// it is. Over every run it answers as the in-memory store does.
module SqlStore {
  import opened Prelude
  import opened Keys
  import opened Records
  import opened LogText
  import opened Selection
  import opened Retention
  import opened StoreModel
  import opened StoreTheorems

  type Database = m: map<Table, set<Record>> | forall t: Table :: t in m witness map t: Table | true :: {}

  /** INSERT OR REPLACE deletes the row with the same primary key and inserts; INSERT
      OR IGNORE inserts only where there is none. */
  function SqlInsert(rows: set<Record>, r: Record): set<Record> {
    if LastWins(TableOf(r)) then (set x | x in rows && KeyOf(x) != KeyOf(r)) + {r}
    else if exists x :: x in rows && KeyOf(x) == KeyOf(r) then rows
    else rows + {r}
  }

  /** The rows of a SELECT ordered for retention. */
  ghost predicate RetentionListing(rows: set<Record>, listing: seq<Record>) {
    SqlOrdered(listing) && forall r :: r in listing <==> r in rows
  }

  /** The ids past the cap of their group in the listing, for which rows are deleted. */
  function SqlDropped(listing: seq<Record>, max: nat): set<Key> {
    set r | r in listing && KeyOf(r) in Dropped(FilterScope(ScopeOf(r), listing), max) :: KeyOf(r)
  }

  /** DELETE ... WHERE id = ?, for each dropped id. */
  function DeleteRows(rows: set<Record>, dropped: set<Key>): set<Record> {
    set r | r in rows && KeyOf(r) !in dropped
  }

  function DeletePartitions(rows: set<Record>, dropped: set<Key>): set<Record> {
    set r | r in rows && Key(KeyOf(r).id, 0) !in dropped
  }

  /** The keys dropped from one table; none without a cap. */
  ghost predicate SqlDrops(rows: set<Record>, max: Option<nat>, dropped: set<Key>) {
    match max
    case None => dropped == {}
    case Some(n) => exists listing :: RetentionListing(rows, listing) && dropped == SqlDropped(listing, n)
  }

  function DeleteDropped(db: Database, receipts: set<Key>, snapshots: set<Key>): Database {
    map t: Table | true ::
      match t
      case QueryReceipts => DeleteRows(db[t], receipts)
      case PartitionMetadata => DeletePartitions(db[t], receipts)
      case CatalogSnapshots => DeleteRows(db[t], snapshots)
      case _ => db[t]
  }

  ghost predicate SqlRetention(db: Database, policy: RetentionPolicy, after: Database, count: nat) {
    exists receipts, snapshots ::
      && SqlDrops(db[QueryReceipts], policy.maxReceiptsPerProfile, receipts)
      && SqlDrops(db[CatalogSnapshots], policy.maxSnapshotsPerScope, snapshots)
      && after == DeleteDropped(db, receipts, snapshots)
      && count == |receipts| + |snapshots|
  }

  /** The integer columns are signed and have 64 bits. */
  const COLUMN_LIMIT: nat := 0x8000_0000_0000_0000

  /** The numbers bound for a record: its time or its index, and those that its body
      holds (other times, sizes, limits and row counts). */
  function Numbers(bodyNumbers: string -> seq<nat>, r: Record): seq<nat> {
    [if r.Partition? then r.index else TimeOf(r)] + bodyNumbers(r.body)
  }

  predicate FitsColumns(bodyNumbers: string -> seq<nat>, r: Record) {
    forall i :: 0 <= i < |Numbers(bodyNumbers, r)| ==> Numbers(bodyNumbers, r)[i] < COLUMN_LIMIT
  }

  /** Which numbers those are, record by record. */
  lemma FitsByFields(bodyNumbers: string -> seq<nat>, r: Record)
    ensures FitsColumns(bodyNumbers, r)
       <==> && (forall i :: 0 <= i < |bodyNumbers(r.body)| ==> bodyNumbers(r.body)[i] < 0x8000_0000_0000_0000)
            && (r.Snapshot? || r.Receipt? || r.Export? || r.Cost? || r.Audit? ==> r.time < 0x8000_0000_0000_0000)
            && (r.Partition? ==> r.index < 0x8000_0000_0000_0000)
  {
    var all, body := Numbers(bodyNumbers, r), bodyNumbers(r.body);
    assert all[0] == if r.Partition? then r.index else TimeOf(r);
    assert forall i :: 0 <= i < |body| ==> body[i] == all[i + 1];
    assert forall i :: 0 < i < |all| ==> all[i] == body[i - 1];
  }

  /** One operation on the database. A record with a number too large for its column is
      refused. */
  ghost predicate SqlStep(c: Codec, bodyNumbers: string -> seq<nat>, db: Database, op: Op, after: Database,
                          answer: Answer) {
    match op
    case WriteRecord(r) =>
      if c.accepts(r) && FitsColumns(bodyNumbers, r) then after == db[TableOf(r) := SqlInsert(db[TableOf(r)], r)] && answer == Done
      else after == db && answer == Refused
    case Ask(q) => after == db && answer.Rows? && IsSqlAnswer(q, db[QueryTable(q)], answer.rows)
    case CompactAll => after == db && answer == Done
    case ApplyRetention(policy) => answer.EvictedCount? && SqlRetention(db, policy, after, answer.count)
    case Reopen => after == db && answer == Done
  }

  /** The answers a run may give. */
  ghost predicate SqlRun(c: Codec, bodyNumbers: string -> seq<nat>, db: Database, ops: seq<Op>, answers: seq<Answer>)
    decreases |ops|
  {
    if ops == [] then answers == []
    else
      && answers != []
      && exists next :: SqlStep(c, bodyNumbers, db, ops[0], next, answers[0])
                        && SqlRun(c, bodyNumbers, next, ops[1..], answers[1..])
  }

  function RowsOf(mem: Mem): Database {
    map t: Table | true :: mem[t].Values
  }

  // ----- statements against map operations -----

  lemma InsertIsPut(m: TableMap, r: Record)
    requires Keyed(TableOf(r), m)
    ensures SqlInsert(m.Values, r) == Put(m, r).Values
    ensures Keyed(TableOf(r), Put(m, r))
  {
    var k := KeyOf(r);
    forall x
      ensures x in SqlInsert(m.Values, r) <==> x in Put(m, r).Values
    {
      assert k in m ==> m[k] in m.Values;
      if x in m.Values {
        var l :| l in m && m[l] == x;
        if l != k {
          assert Put(m, r)[l] == x;
        }
      }
      assert k in Put(m, r);
    }
  }

  lemma DroppedIsEvicted(t: Table, m: TableMap, listing: seq<Record>, max: nat)
    requires Keyed(t, m) && RetentionListing(m.Values, listing)
    ensures SqlDropped(listing, max) == Evicted(m, max)
  {
    hide Kept, Group, SortBy;
    forall k
      ensures k in SqlDropped(listing, max) <==> k in Evicted(m, max)
    {
      if k in m {
        var r := m[k];
        assert r in m.Values && KeyOf(r) == k;
        SqlGroupIsGroup(t, m, ScopeOf(r), listing);
        GroupIsGroup(t, m, ScopeOf(r));
        DroppedAreNotKept(t, m, ScopeOf(r), Group(m, ScopeOf(r)), max);
      }
    }
  }

  lemma DeleteIsMinus(t: Table, m: TableMap, dropped: set<Key>)
    requires Keyed(t, m)
    ensures DeleteRows(m.Values, dropped) == (m - dropped).Values
    ensures DeletePartitions(m.Values, dropped) == WithoutReceipts(m, dropped).Values
  {
    forall r
      ensures r in DeleteRows(m.Values, dropped) <==> r in (m - dropped).Values
      ensures r in DeletePartitions(m.Values, dropped) <==> r in WithoutReceipts(m, dropped).Values
    {
      if r in m.Values {
        var k :| k in m && m[k] == r;
        assert k == KeyOf(r);
        if k !in dropped {
          assert (m - dropped)[k] == r;
        }
        if Key(k.id, 0) !in dropped {
          assert WithoutReceipts(m, dropped)[k] == r;
        }
      }
    }
  }

  /** A listing for retention exists: the rows sorted. */
  lemma ListingExists(t: Table, m: TableMap) returns (listing: seq<Record>)
    requires Keyed(t, m)
    ensures RetentionListing(m.Values, listing)
  {
    ValuesOrdered(t, m);
    OrderedDistinct(ByKey, Values(m));
    listing := SortForRetention(Values(m));
    SortForRetentionOrdered(Values(m));
  }

  predicate Before(a: Record, b: Record) {
    StringLess(ScopeOf(a).profileId, ScopeOf(b).profileId)
    || (ScopeOf(a).profileId == ScopeOf(b).profileId && Precedes(NewestFirst, a, b))
  }

  function InsertForRetention(r: Record, rs: seq<Record>): (out: seq<Record>)
    ensures forall x :: x in out <==> x == r || x in rs
  {
    if rs == [] || Before(r, rs[0]) then [r] + rs else [rs[0]] + InsertForRetention(r, rs[1..])
  }

  function SortForRetention(rs: seq<Record>): (out: seq<Record>)
    ensures forall x :: x in out <==> x in rs
  {
    if rs == [] then [] else InsertForRetention(rs[0], SortForRetention(rs[1..]))
  }

  lemma BeforeTotal(a: Record, b: Record)
    requires KeyOf(a) != KeyOf(b)
    ensures Before(a, b) || Before(b, a)
  {
    StringLessTotal(ScopeOf(a).profileId, ScopeOf(b).profileId);
    PrecedesTotal(NewestFirst, a, b);
  }

  lemma BeforeTransitive(a: Record, b: Record, c: Record)
    requires Before(a, b) && Before(b, c)
    ensures Before(a, c)
  {
    var p, q, r := ScopeOf(a).profileId, ScopeOf(b).profileId, ScopeOf(c).profileId;
    if StringLess(p, q) && StringLess(q, r) {
      StringLessTransitive(p, q, r);
    }
    if Precedes(NewestFirst, a, b) && Precedes(NewestFirst, b, c) {
      PrecedesTransitive(NewestFirst, a, b, c);
    }
  }

  lemma {:induction false} InsertForRetentionOrdered(r: Record, rs: seq<Record>)
    requires SqlOrdered(rs) && forall x :: x in rs ==> KeyOf(x) != KeyOf(r)
    ensures SqlOrdered(InsertForRetention(r, rs))
    decreases |rs|
  {
    if rs != [] {
      var head, tail := rs[0], rs[1..];
      assert head in rs;
      BeforeTotal(r, head);
      assert SqlOrdered(tail) && forall i :: 0 <= i < |tail| ==> tail[i] == rs[i + 1];
      if Before(r, head) {
        forall i | 0 <= i < |rs|
          ensures Before(r, rs[i])
        {
          if i > 0 {
            BeforeTransitive(r, head, rs[i]);
          }
        }
      } else {
        InsertForRetentionOrdered(r, tail);
        var out := InsertForRetention(r, tail);
        forall x | x in out
          ensures Before(head, x)
        {
          if x != r {
            var i :| 0 <= i < |tail| && tail[i] == x;
            assert Before(rs[0], rs[i + 1]);
          }
        }
        assert forall i :: 0 <= i < |out| ==> out[i] in out;
      }
    }
  }

  lemma {:induction false} SortForRetentionOrdered(rs: seq<Record>)
    requires DistinctKeys(rs)
    ensures SqlOrdered(SortForRetention(rs))
    decreases |rs|
  {
    if rs != [] {
      SortForRetentionOrdered(rs[1..]);
      forall x | x in rs[1..]
        ensures KeyOf(x) != KeyOf(rs[0])
      {
        var i :| 0 <= i < |rs[1..]| && rs[1..][i] == x;
        assert rs[i + 1] == x;
      }
      InsertForRetentionOrdered(rs[0], SortForRetention(rs[1..]));
    }
  }

  // ----- one operation -----

  function DroppedBy(m: TableMap, max: Option<nat>): set<Key> {
    match max case None => {} case Some(n) => Evicted(m, n)
  }

  lemma DropsAreEvicted(t: Table, m: TableMap, max: Option<nat>, dropped: set<Key>)
    requires Keyed(t, m)
    ensures SqlDrops(m.Values, max, dropped) <==> dropped == DroppedBy(m, max)
  {
    if max.Some? {
      var listing := ListingExists(t, m);
      DroppedIsEvicted(t, m, listing, max.value);
      if SqlDrops(m.Values, max, dropped) {
        var other :| RetentionListing(m.Values, other) && dropped == SqlDropped(other, max.value);
        DroppedIsEvicted(t, m, other, max.value);
      }
    }
  }

  /** Without a cap nothing is dropped; with one, what is dropped is what is not kept. */
  lemma DroppedRest(m: TableMap, max: Option<nat>)
    ensures m - DroppedBy(m, max) == match max case None => m case Some(n) => Kept(m, n)
  {
    hide Kept, Evicted;
    if max.Some? {
      EvictedRest(m, max.value);
    }
  }

  lemma DroppedPartitions(m: TableMap, receipts: TableMap, max: Option<nat>)
    ensures WithoutReceipts(m, DroppedBy(receipts, max))
         == match max case None => m case Some(n) => WithoutReceipts(m, Evicted(receipts, n))
  {
    WithoutNone(m);
    hide WithoutReceipts, Evicted;
  }

  lemma DeletedTable(mem: Mem, policy: RetentionPolicy, t: Table)
    requires MemKeyed(mem)
    ensures DeleteDropped(RowsOf(mem), DroppedBy(mem[QueryReceipts], policy.maxReceiptsPerProfile),
              DroppedBy(mem[CatalogSnapshots], policy.maxSnapshotsPerScope))[t]
         == RetainedTable(mem, policy, t).Values
  {
    var receipts := DroppedBy(mem[QueryReceipts], policy.maxReceiptsPerProfile);
    var snapshots := DroppedBy(mem[CatalogSnapshots], policy.maxSnapshotsPerScope);
    assert Keyed(t, mem[t]);
    hide Kept, Evicted, WithoutReceipts, DeleteRows, DeletePartitions, Keyed, DroppedBy, RowsOf;
    RowsOfAt(mem, t);
    DeleteIsMinus(t, mem[t], receipts);
    DeleteIsMinus(t, mem[t], snapshots);
    DroppedRest(mem[QueryReceipts], policy.maxReceiptsPerProfile);
    DroppedRest(mem[CatalogSnapshots], policy.maxSnapshotsPerScope);
    DroppedPartitions(mem[PartitionMetadata], mem[QueryReceipts], policy.maxReceiptsPerProfile);
  }

  lemma RowsOfAt(mem: Mem, t: Table)
    ensures RowsOf(mem)[t] == mem[t].Values
  {
  }

  lemma CountIsDropped(mem: Mem, policy: RetentionPolicy)
    ensures RetainCount(mem, policy)
         == |DroppedBy(mem[QueryReceipts], policy.maxReceiptsPerProfile)|
            + |DroppedBy(mem[CatalogSnapshots], policy.maxSnapshotsPerScope)|
  {
    hide Evicted;
  }

  /** Each table's listing may differ, its dropped keys may not. */
  lemma RetentionIs(db: Database, policy: RetentionPolicy, receipts: set<Key>, snapshots: set<Key>,
                    after: Database, count: nat)
    requires forall r :: SqlDrops(db[QueryReceipts], policy.maxReceiptsPerProfile, r) <==> r == receipts
    requires forall r :: SqlDrops(db[CatalogSnapshots], policy.maxSnapshotsPerScope, r) <==> r == snapshots
    ensures SqlRetention(db, policy, after, count)
       <==> after == DeleteDropped(db, receipts, snapshots) && count == |receipts| + |snapshots|
  {
    hide SqlDrops, DeleteDropped;
  }

  lemma OnlyDropped(mem: Mem, t: Table, max: Option<nat>)
    requires Keyed(t, mem[t])
    ensures forall r :: SqlDrops(RowsOf(mem)[t], max, r) <==> r == DroppedBy(mem[t], max)
  {
    hide *;
    RowsOfAt(mem, t);
    forall r
      ensures SqlDrops(RowsOf(mem)[t], max, r) <==> r == DroppedBy(mem[t], max)
    {
      DropsAreEvicted(t, mem[t], max, r);
    }
  }

  lemma RetentionAgrees(mem: Mem, policy: RetentionPolicy, after: Database, count: nat)
    requires MemKeyed(mem)
    ensures SqlRetention(RowsOf(mem), policy, after, count)
       <==> after == RowsOf(MemRetain(mem, policy)) && count == RetainCount(mem, policy)
  {
    assert Keyed(QueryReceipts, mem[QueryReceipts]) && Keyed(CatalogSnapshots, mem[CatalogSnapshots]);
    hide *;
    DeletedTables(mem, policy);
    CountIsDropped(mem, policy);
    OnlyDropped(mem, QueryReceipts, policy.maxReceiptsPerProfile);
    OnlyDropped(mem, CatalogSnapshots, policy.maxSnapshotsPerScope);
    RetentionIs(RowsOf(mem), policy, DroppedBy(mem[QueryReceipts], policy.maxReceiptsPerProfile),
      DroppedBy(mem[CatalogSnapshots], policy.maxSnapshotsPerScope), after, count);
  }

  lemma DeletedTables(mem: Mem, policy: RetentionPolicy)
    requires MemKeyed(mem)
    ensures DeleteDropped(RowsOf(mem), DroppedBy(mem[QueryReceipts], policy.maxReceiptsPerProfile),
              DroppedBy(mem[CatalogSnapshots], policy.maxSnapshotsPerScope))
         == RowsOf(MemRetain(mem, policy))
  {
    var a := DeleteDropped(RowsOf(mem), DroppedBy(mem[QueryReceipts], policy.maxReceiptsPerProfile),
      DroppedBy(mem[CatalogSnapshots], policy.maxSnapshotsPerScope));
    var b := RowsOf(MemRetain(mem, policy));
    hide DeleteDropped, RetainedTable, MemKeyed, DroppedBy;
    forall t: Table
      ensures a[t] == b[t]
    {
      DeletedTable(mem, policy, t);
    }
    SameRows(a, b);
  }

  lemma SameRows(a: Database, b: Database)
    requires forall t: Table :: a[t] == b[t]
    ensures a == b
  {
    assert a.Keys == b.Keys;
  }

  lemma SetRows(mem: Mem, t: Table, m: TableMap, next: Mem, after: Database)
    requires next == mem[t := m] && after == RowsOf(mem)[t := m.Values]
    ensures after == RowsOf(next)
  {
    hide *;
    forall u: Table
      ensures after[u] == RowsOf(next)[u]
    {
      RowsOfAt(mem, u);
      RowsOfAt(next, u);
    }
    SameRows(after, RowsOf(next));
  }

  lemma WriteKeyed(mem: Mem, r: Record, next: Mem)
    requires MemKeyed(mem) && next == mem[TableOf(r) := Put(mem[TableOf(r)], r)]
    ensures MemKeyed(next)
  {
    KeyedAt(mem, TableOf(r));
    hide *;
    InsertIsPut(mem[TableOf(r)], r);
    SetKeyed(mem, TableOf(r), Put(mem[TableOf(r)], r), next);
  }

  lemma KeyedAt(mem: Mem, t: Table)
    requires MemKeyed(mem)
    ensures Keyed(t, mem[t])
  {
    hide Keyed;
  }

  lemma WrittenRows(mem: Mem, r: Record, next: Mem, after: Database)
    requires MemKeyed(mem) && next == mem[TableOf(r) := Put(mem[TableOf(r)], r)]
    requires after == RowsOf(mem)[TableOf(r) := SqlInsert(RowsOf(mem)[TableOf(r)], r)]
    ensures after == RowsOf(next)
  {
    KeyedAt(mem, TableOf(r));
    hide *;
    InsertIsPut(mem[TableOf(r)], r);
    RowsOfAt(mem, TableOf(r));
    SetRows(mem, TableOf(r), Put(mem[TableOf(r)], r), next, after);
  }

  lemma WriteRows(mem: Mem, r: Record)
    requires MemKeyed(mem)
    ensures RowsOf(mem)[TableOf(r) := SqlInsert(RowsOf(mem)[TableOf(r)], r)]
         == RowsOf(mem[TableOf(r) := Put(mem[TableOf(r)], r)])
    ensures MemKeyed(mem[TableOf(r) := Put(mem[TableOf(r)], r)])
  {
    hide *;
    var next := mem[TableOf(r) := Put(mem[TableOf(r)], r)];
    WriteKeyed(mem, r, next);
    WrittenRows(mem, r, next, RowsOf(mem)[TableOf(r) := SqlInsert(RowsOf(mem)[TableOf(r)], r)]);
  }

  /** The codec of a store that also refuses what the columns cannot hold. */
  function Fitting(c: Codec, bodyNumbers: string -> seq<nat>): Codec {
    c.(accepts := r => c.accepts(r) && FitsColumns(bodyNumbers, r))
  }

  lemma FittingAccepts(c: Codec, bodyNumbers: string -> seq<nat>, r: Record)
    ensures Fitting(c, bodyNumbers).accepts(r) <==> c.accepts(r) && FitsColumns(bodyNumbers, r)
  {
  }

  /** One operation: the database may answer, and move, only as an in-memory store that
      refuses what the columns cannot hold. */
  lemma SqlStepAgrees(c: Codec, bodyNumbers: string -> seq<nat>, mem: Mem, op: Op, after: Database, answer: Answer)
    requires MemKeyed(mem)
    ensures MemKeyed(MemStep(Fitting(c, bodyNumbers), mem, op).0)
    ensures SqlStep(c, bodyNumbers, RowsOf(mem), op, after, answer)
       <==> after == RowsOf(MemStep(Fitting(c, bodyNumbers), mem, op).0)
            && answer == MemStep(Fitting(c, bodyNumbers), mem, op).1
  {
    hide RowsOf, MemKeyed, SqlRetention, MemRetain, RetainCount, IsSqlAnswer, MemAnswer, Put, SqlInsert, TableOf,
      QueryTable, FitsColumns, Fitting;
    match op
    case WriteRecord(r) =>
      FittingAccepts(c, bodyNumbers, r);
      WriteRows(mem, r);
    case Ask(q) => AskAgrees(mem, q, answer);
    case CompactAll =>
    case ApplyRetention(policy) =>
      RetentionKeepsKeys(mem, policy);
      if answer.EvictedCount? {
        RetentionAgrees(mem, policy, after, answer.count);
      }
    case Reopen =>
  }

  lemma AskAgrees(mem: Mem, q: Query, answer: Answer)
    requires MemKeyed(mem)
    ensures answer.Rows? && IsSqlAnswer(q, RowsOf(mem)[QueryTable(q)], answer.rows)
       <==> answer == Rows(MemAnswer(q, mem[QueryTable(q)]))
  {
    var t := QueryTable(q);
    assert Keyed(t, mem[t]) && RowsOf(mem)[t] == mem[t].Values;
    hide Keyed, IsSqlAnswer, MemAnswer, QueryTable, MemKeyed, RowsOf;
    MemAnswerIsSqlAnswer(q, t, mem[t]);
    if answer.Rows? && IsSqlAnswer(q, mem[t].Values, answer.rows) {
      SqlAnswerUnique(q, mem[t].Values, answer.rows, MemAnswer(q, mem[t]));
    }
  }

  lemma MemRunStep(c: Codec, mem: Mem, ops: seq<Op>)
    requires ops != []
    ensures MemRun(c, mem, ops).1
         == [MemStep(c, mem, ops[0]).1] + MemRun(c, MemStep(c, mem, ops[0]).0, ops[1..]).1
  {
    hide MemStep;
  }

  lemma SqlStepOnly(c: Codec, bodyNumbers: string -> seq<nat>, mem: Mem, op: Op, next: Mem, answer: Answer)
    requires MemKeyed(mem) && MemStep(Fitting(c, bodyNumbers), mem, op) == (next, answer)
    ensures MemKeyed(next)
    ensures forall after, a :: SqlStep(c, bodyNumbers, RowsOf(mem), op, after, a) <==> after == RowsOf(next) && a == answer
  {
    hide *;
    SqlStepAgrees(c, bodyNumbers, mem, op, RowsOf(next), answer);
    forall after, a
      ensures SqlStep(c, bodyNumbers, RowsOf(mem), op, after, a) <==> after == RowsOf(next) && a == answer
    {
      SqlStepAgrees(c, bodyNumbers, mem, op, after, a);
    }
  }

  /** The only answers that a run of the SQL backend can give are those of the in-memory
      store that refuses what the columns cannot hold, over the same operations. */
  lemma {:induction false} SqlRunsAgree(c: Codec, bodyNumbers: string -> seq<nat>, mem: Mem, ops: seq<Op>,
                                        answers: seq<Answer>)
    requires MemKeyed(mem)
    ensures SqlRun(c, bodyNumbers, RowsOf(mem), ops, answers) <==> answers == MemRun(Fitting(c, bodyNumbers), mem, ops).1
    decreases |ops|
  {
    var fitting := Fitting(c, bodyNumbers);
    if ops != [] && answers != [] {
      var (next, answer) := MemStep(fitting, mem, ops[0]);
      SqlStepOnly(c, bodyNumbers, mem, ops[0], next, answer);
      MemRunStep(fitting, mem, ops);
      hide MemStep, SqlStep, RowsOf, MemKeyed, MemRun, Fitting;
      SqlRunsAgree(c, bodyNumbers, next, ops[1..], answers[1..]);
      assert answers == [answers[0]] + answers[1..];
      assert ([answer] + MemRun(fitting, next, ops[1..]).1)[1..] == MemRun(fitting, next, ops[1..]).1;
    } else {
      hide MemStep, RowsOf;
    }
  }

  // ----- where the backends agree, and where not -----

  /** An accepted record of the operation has numbers that its columns hold. */
  predicate Fits(c: Codec, bodyNumbers: string -> seq<nat>, op: Op) {
    op.WriteRecord? && c.accepts(op.record) ==> FitsColumns(bodyNumbers, op.record)
  }

  predicate AllFit(c: Codec, bodyNumbers: string -> seq<nat>, ops: seq<Op>) {
    forall i :: 0 <= i < |ops| ==> Fits(c, bodyNumbers, ops[i])
  }

  /** An operation that fits is one step of both in-memory stores; an accepted record
      that does not fit is answered differently. */
  lemma FittingStep(c: Codec, bodyNumbers: string -> seq<nat>, mem: Mem, op: Op)
    ensures if Fits(c, bodyNumbers, op) then MemStep(Fitting(c, bodyNumbers), mem, op) == MemStep(c, mem, op)
            else MemStep(Fitting(c, bodyNumbers), mem, op).1 == Refused && MemStep(c, mem, op).1 == Done
  {
    hide MemRetain, RetainCount, MemAnswer, Put, FitsColumns;
  }

  lemma {:induction false} FittingRun(c: Codec, bodyNumbers: string -> seq<nat>, mem: Mem, ops: seq<Op>)
    ensures MemRun(Fitting(c, bodyNumbers), mem, ops).1 == MemRun(c, mem, ops).1 <==> AllFit(c, bodyNumbers, ops)
    decreases |ops|
  {
    if ops != [] {
      var fitting, op := Fitting(c, bodyNumbers), ops[0];
      var next := MemStep(c, mem, op).0;
      FittingStep(c, bodyNumbers, mem, op);
      MemRunStep(c, mem, ops);
      MemRunStep(fitting, mem, ops);
      AllFitStep(c, bodyNumbers, ops);
      hide MemStep, MemRun, Fits, AllFit, Fitting;
      if Fits(c, bodyNumbers, op) {
        FittingRun(c, bodyNumbers, next, ops[1..]);
        assert MemRun(fitting, mem, ops).1[1..] == MemRun(fitting, next, ops[1..]).1;
        assert MemRun(c, mem, ops).1[1..] == MemRun(c, next, ops[1..]).1;
      } else {
        assert MemRun(fitting, mem, ops).1[0] == Refused && MemRun(c, mem, ops).1[0] == Done;
      }
    }
  }

  lemma AllFitStep(c: Codec, bodyNumbers: string -> seq<nat>, ops: seq<Op>)
    requires ops != []
    ensures AllFit(c, bodyNumbers, ops) <==> Fits(c, bodyNumbers, ops[0]) && AllFit(c, bodyNumbers, ops[1..])
  {
    hide Fits;
    if Fits(c, bodyNumbers, ops[0]) && AllFit(c, bodyNumbers, ops[1..]) {
      forall i | 0 <= i < |ops|
        ensures Fits(c, bodyNumbers, ops[i])
      {
        if i > 0 {
          assert ops[i] == ops[1..][i - 1];
        }
      }
    }
  }

  /** The SQL backend can give the in-memory answers exactly when the numbers of every
      accepted record are below two to the 63; and then it can give no others. */
  lemma AgreementNeedsFit(c: Codec, bodyNumbers: string -> seq<nat>, mem: Mem, ops: seq<Op>)
    requires MemKeyed(mem)
    ensures SqlRun(c, bodyNumbers, RowsOf(mem), ops, MemRun(c, mem, ops).1) <==> AllFit(c, bodyNumbers, ops)
    ensures AllFit(c, bodyNumbers, ops) ==>
              forall answers :: SqlRun(c, bodyNumbers, RowsOf(mem), ops, answers) ==> answers == MemRun(c, mem, ops).1
  {
    hide *;
    FittingRun(c, bodyNumbers, mem, ops);
    forall answers
      ensures SqlRun(c, bodyNumbers, RowsOf(mem), ops, answers)
         <==> answers == MemRun(Fitting(c, bodyNumbers), mem, ops).1
    {
      SqlRunsAgree(c, bodyNumbers, mem, ops, answers);
    }
  }

  /** An instance: a receipt of the millisecond two to the 63. The maps take it; the SQL
      backend refuses it. */
  lemma LateReceipt(c: Codec, bodyNumbers: string -> seq<nat>, mem: Mem, r: Record)
    requires MemKeyed(mem) && c.accepts(r)
    requires r == Receipt("receipt", "plan", "profile", "succeeded", None, 0x8000_0000_0000_0000, "")
    ensures MemRun(c, mem, [WriteRecord(r)]).1 == [Done]
    ensures forall answers :: SqlRun(c, bodyNumbers, RowsOf(mem), [WriteRecord(r)], answers) <==> answers == [Refused]
  {
    var ops := [WriteRecord(r)];
    assert Numbers(bodyNumbers, r)[0] == COLUMN_LIMIT;
    assert !Fits(c, bodyNumbers, ops[0]);
    FittingStep(c, bodyNumbers, mem, ops[0]);
    assert ops[1..] == [];
    OneAnswer(c, mem, ops);
    OneAnswer(Fitting(c, bodyNumbers), mem, ops);
    hide *;
    forall answers
      ensures SqlRun(c, bodyNumbers, RowsOf(mem), ops, answers) <==> answers == [Refused]
    {
      SqlRunsAgree(c, bodyNumbers, mem, ops, answers);
    }
  }

  lemma OneAnswer(c: Codec, mem: Mem, ops: seq<Op>)
    requires |ops| == 1
    ensures MemRun(c, mem, ops).1 == [MemStep(c, mem, ops[0]).1]
  {
    MemRunStep(c, mem, ops);
    hide MemStep;
    assert ops[1..] == [];
    assert MemRun(c, MemStep(c, mem, ops[0]).0, []).1 == [];
  }

  lemma DurableKeyed(c: Codec, s: Store)
    requires Faithful(c)
    ensures MemKeyed(Durable(c, s))
  {
    forall t: Table
      ensures Keyed(t, Durable(c, s)[t])
    {
      ContentsOk(c, t, s[t].text);
      DurableAt(c, s, t);
    }
  }

  /** The two backends, holding the same records: the SQL backend can answer as a run of
      the file store does exactly when the numbers of every accepted record fit; and then
      it can answer in no other way. */
  lemma FileAndSqlAgree(c: Codec, bodyNumbers: string -> seq<nat>, s: Store, ops: seq<Op>)
    requires Faithful(c) && Inv(c, s)
    ensures SqlRun(c, bodyNumbers, RowsOf(Durable(c, s)), ops, StoreRun(c, s, ops).1) <==> AllFit(c, bodyNumbers, ops)
    ensures AllFit(c, bodyNumbers, ops) ==>
              forall answers :: SqlRun(c, bodyNumbers, RowsOf(Durable(c, s)), ops, answers) ==>
                answers == StoreRun(c, s, ops).1
  {
    hide *;
    DurableKeyed(c, s);
    RunsAgree(c, s, ops);
    AgreementNeedsFit(c, bodyNumbers, Durable(c, s), ops);
  }
}
