// Which records retention keeps, from the records' own fields.
module Evictions {
  import opened Prelude
  import opened Keys
  import opened Records
  import opened LogText
  import opened Selection
  import opened Retention
  import opened StoreModel
  import opened StoreTheorems
  import opened Maintenance
  import opened SqlStore

  // ----- who is newer -----

  /** Two receipts of one profile. */
  predicate SameProfile(a: Record, b: Record) {
    a.Receipt? && b.Receipt? && a.profileId == b.profileId
  }

  /** Two snapshots of one profile, database and schema. */
  predicate SameScope(a: Record, b: Record) {
    && a.Snapshot? && b.Snapshot?
    && a.profileId == b.profileId && a.database == b.database && a.schema == b.schema
  }

  /** Later, or at one time the greater id. */
  predicate IsNewer(a: Record, b: Record)
    requires (a.Receipt? && b.Receipt?) || (a.Snapshot? && b.Snapshot?)
  {
    a.time > b.time || (a.time == b.time && StringLess(b.id, a.id))
  }

  function NewerReceipts(m: TableMap, r: Record): set<Key> {
    set k | k in m && SameProfile(m[k], r) && IsNewer(m[k], r)
  }

  function NewerSnapshots(m: TableMap, r: Record): set<Key> {
    set k | k in m && SameScope(m[k], r) && IsNewer(m[k], r)
  }

  lemma NewestFirstIs(a: Record, b: Record)
    requires (a.Receipt? && b.Receipt?) || (a.Snapshot? && b.Snapshot?)
    ensures Precedes(NewestFirst, a, b) <==> IsNewer(a, b)
  {
    hide StringLess;
  }

  lemma ReceiptRank(m: TableMap, k: Key)
    requires Keyed(QueryReceipts, m) && k in m
    ensures m[k].Receipt? && NewerReceipts(m, m[k]) == Newer(m, m[k])
  {
    assert TableOf(m[k]) == QueryReceipts;
    hide Precedes, IsNewer;
    forall x | x in m
      ensures m[x].Receipt? && (Precedes(NewestFirst, m[x], m[k]) <==> IsNewer(m[x], m[k]))
    {
      assert TableOf(m[x]) == QueryReceipts;
      NewestFirstIs(m[x], m[k]);
    }
  }

  lemma SnapshotRank(m: TableMap, k: Key)
    requires Keyed(CatalogSnapshots, m) && k in m
    ensures m[k].Snapshot? && NewerSnapshots(m, m[k]) == Newer(m, m[k])
  {
    assert TableOf(m[k]) == CatalogSnapshots;
    hide Precedes, IsNewer;
    forall x | x in m
      ensures m[x].Snapshot? && (Precedes(NewestFirst, m[x], m[k]) <==> IsNewer(m[x], m[k]))
    {
      assert TableOf(m[x]) == CatalogSnapshots;
      NewestFirstIs(m[x], m[k]);
    }
  }

  // ----- the tables after retention -----

  /** Part of a table, every record that stays unchanged. */
  ghost predicate PartOf(after: TableMap, before: TableMap) {
    forall k :: k in after ==> k in before && after[k] == before[k]
  }

  /** Receipts: without a cap all stay; with one, those with fewer newer receipts of their
      profile than the cap. */
  ghost predicate ReceiptsKept(before: TableMap, after: TableMap, cap: Option<nat>) {
    && PartOf(after, before)
    && forall k :: k in before ==>
         (k in after <==> (cap.None? || |NewerReceipts(before, before[k])| < cap.value))
  }

  /** Snapshots: the same within a profile, database and schema. */
  ghost predicate SnapshotsKept(before: TableMap, after: TableMap, cap: Option<nat>) {
    && PartOf(after, before)
    && forall k :: k in before ==>
         (k in after <==> (cap.None? || |NewerSnapshots(before, before[k])| < cap.value))
  }

  /** Partitions: all but those of a receipt that was there and went. */
  ghost predicate PartitionsKept(before: TableMap, after: TableMap, receipts: TableMap, receiptsAfter: TableMap) {
    && PartOf(after, before)
    && forall k :: k in before ==>
         (k in after <==> !(Key(k.id, 0) in receipts && Key(k.id, 0) !in receiptsAfter))
  }

  /** All ten tables, and the count. */
  ghost predicate Retains(before: Mem, policy: RetentionPolicy, after: Mem, count: int) {
    && ReceiptsKept(before[QueryReceipts], after[QueryReceipts], policy.maxReceiptsPerProfile)
    && SnapshotsKept(before[CatalogSnapshots], after[CatalogSnapshots], policy.maxSnapshotsPerScope)
    && PartitionsKept(before[PartitionMetadata], after[PartitionMetadata], before[QueryReceipts], after[QueryReceipts])
    && (forall t: Table :: !t.QueryReceipts? && !t.CatalogSnapshots? && !t.PartitionMetadata? ==> after[t] == before[t])
    && count == (|before[QueryReceipts]| - |after[QueryReceipts]|)
                + (|before[CatalogSnapshots]| - |after[CatalogSnapshots]|)
  }

  lemma ReceiptsAre(mem: Mem, policy: RetentionPolicy)
    requires Keyed(QueryReceipts, mem[QueryReceipts])
    ensures ReceiptsKept(mem[QueryReceipts], MemRetain(mem, policy)[QueryReceipts], policy.maxReceiptsPerProfile)
  {
    var before := mem[QueryReceipts];
    hide Newer, NewerReceipts, Keyed;
    forall k | k in before
      ensures NewerReceipts(before, before[k]) == Newer(before, before[k])
    {
      ReceiptRank(before, k);
    }
  }

  lemma SnapshotsAre(mem: Mem, policy: RetentionPolicy)
    requires Keyed(CatalogSnapshots, mem[CatalogSnapshots])
    ensures SnapshotsKept(mem[CatalogSnapshots], MemRetain(mem, policy)[CatalogSnapshots], policy.maxSnapshotsPerScope)
  {
    var before := mem[CatalogSnapshots];
    hide Newer, NewerSnapshots, Keyed;
    forall k | k in before
      ensures NewerSnapshots(before, before[k]) == Newer(before, before[k])
    {
      SnapshotRank(before, k);
    }
  }

  lemma PartitionsAre(mem: Mem, policy: RetentionPolicy)
    ensures var after := MemRetain(mem, policy);
      PartitionsKept(mem[PartitionMetadata], after[PartitionMetadata], mem[QueryReceipts], after[QueryReceipts])
  {
    var after := MemRetain(mem, policy);
    assert after[PartitionMetadata] == RetainedTable(mem, policy, PartitionMetadata);
    assert after[QueryReceipts] == RetainedTable(mem, policy, QueryReceipts);
    hide RetainedTable, MemRetain;
    forall k | k in mem[PartitionMetadata] || k in after[PartitionMetadata]
      ensures k in after[PartitionMetadata] ==>
                k in mem[PartitionMetadata] && after[PartitionMetadata][k] == mem[PartitionMetadata][k]
      ensures k in mem[PartitionMetadata] ==>
                (k in after[PartitionMetadata] <==>
                 !(Key(k.id, 0) in mem[QueryReceipts] && Key(k.id, 0) !in after[QueryReceipts]))
    {
      PartitionsFollowReceipts(mem, policy, k);
    }
  }

  /** Retention over the in-memory tables. */
  lemma MemRetains(mem: Mem, policy: RetentionPolicy)
    requires MemKeyed(mem)
    ensures Retains(mem, policy, MemRetain(mem, policy), RetainCount(mem, policy))
  {
    assert Keyed(QueryReceipts, mem[QueryReceipts]) && Keyed(CatalogSnapshots, mem[CatalogSnapshots]);
    ReceiptsAre(mem, policy);
    SnapshotsAre(mem, policy);
    PartitionsAre(mem, policy);
    RetentionCountsWhatItRemoves(mem, policy);
    hide Kept, Evicted, WithoutReceipts, Keyed, ReceiptsKept, SnapshotsKept, PartitionsKept, RetainCount;
  }

  lemma DurableOk(c: Codec, s: Store)
    requires Faithful(c)
    ensures MemKeyed(Durable(c, s))
  {
    forall t: Table
      ensures Keyed(t, Durable(c, s)[t])
    {
      ContentsOk(c, t, s[t].text);
      DurableAt(c, s, t);
    }
  }

  /** Retention over the file store: of the durable tables before and after it, each
      receipt and each snapshot stays exactly when fewer of its own profile, or of its own
      profile, database and schema, are newer than the cap allows; partitions go with their
      receipts; nothing else changes; and the count is what went. */
  lemma StoreRetains(c: Codec, s: Store, policy: RetentionPolicy)
    requires Faithful(c) && Inv(c, s)
    ensures var (next, answer) := StoreStep(c, s, ApplyRetention(policy));
      answer.EvictedCount? && Retains(Durable(c, s), policy, Durable(c, next), answer.count)
  {
    hide *;
    StepAgrees(c, s, ApplyRetention(policy));
    DurableOk(c, s);
    MemRetains(Durable(c, s), policy);
    RetentionStep(c, Durable(c, s), policy);
  }

  lemma RetentionStep(c: Codec, mem: Mem, policy: RetentionPolicy)
    ensures MemStep(c, mem, ApplyRetention(policy)) == (MemRetain(mem, policy), EvictedCount(RetainCount(mem, policy)))
  {
    hide MemRetain, RetainCount;
  }

  /** Retention over the rows of the SQL backend, whatever the order of its listing. */
  lemma SqlRetains(mem: Mem, policy: RetentionPolicy, after: Database, count: nat)
    requires MemKeyed(mem) && SqlRetention(RowsOf(mem), policy, after, count)
    ensures after == RowsOf(MemRetain(mem, policy)) && Retains(mem, policy, MemRetain(mem, policy), count)
  {
    hide *;
    RetentionAgrees(mem, policy, after, count);
    MemRetains(mem, policy);
  }

  // ----- scopes within their cap -----

  function ReceiptsOf(m: TableMap, r: Record): set<Key> {
    set k | k in m && SameProfile(m[k], r)
  }

  function SnapshotsOf(m: TableMap, r: Record): set<Key> {
    set k | k in m && SameScope(m[k], r)
  }

  lemma FewerReceipts(m: TableMap, k: Key)
    requires k in m && m[k].Receipt?
    ensures |NewerReceipts(m, m[k])| < |ReceiptsOf(m, m[k])|
  {
    StringLessIrreflexive(m[k].id);
    assert k in ReceiptsOf(m, m[k]) && k !in NewerReceipts(m, m[k]);
    SubsetSize(NewerReceipts(m, m[k]), ReceiptsOf(m, m[k]));
  }

  lemma FewerSnapshots(m: TableMap, k: Key)
    requires k in m && m[k].Snapshot?
    ensures |NewerSnapshots(m, m[k])| < |SnapshotsOf(m, m[k])|
  {
    StringLessIrreflexive(m[k].id);
    assert k in SnapshotsOf(m, m[k]) && k !in NewerSnapshots(m, m[k]);
    SubsetSize(NewerSnapshots(m, m[k]), SnapshotsOf(m, m[k]));
  }

  /** From a profile with no more receipts than the cap none is evicted. */
  lemma SmallProfileStays(mem: Mem, policy: RetentionPolicy, k: Key)
    requires MemKeyed(mem) && k in mem[QueryReceipts] && policy.maxReceiptsPerProfile.Some?
    requires |ReceiptsOf(mem[QueryReceipts], mem[QueryReceipts][k])| <= policy.maxReceiptsPerProfile.value
    ensures k in MemRetain(mem, policy)[QueryReceipts]
  {
    ReceiptRank(mem[QueryReceipts], k);
    FewerReceipts(mem[QueryReceipts], k);
    ReceiptsAre(mem, policy);
    hide NewerReceipts, ReceiptsOf, Newer, MemRetain;
  }

  /** From a profile, database and schema with no more snapshots than the cap none is
      evicted. */
  lemma SmallScopeStays(mem: Mem, policy: RetentionPolicy, k: Key)
    requires MemKeyed(mem) && k in mem[CatalogSnapshots] && policy.maxSnapshotsPerScope.Some?
    requires |SnapshotsOf(mem[CatalogSnapshots], mem[CatalogSnapshots][k])| <= policy.maxSnapshotsPerScope.value
    ensures k in MemRetain(mem, policy)[CatalogSnapshots]
  {
    SnapshotRank(mem[CatalogSnapshots], k);
    FewerSnapshots(mem[CatalogSnapshots], k);
    SnapshotsAre(mem, policy);
    hide NewerSnapshots, SnapshotsOf, Newer, MemRetain;
  }
}
