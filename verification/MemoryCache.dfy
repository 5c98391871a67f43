// The data directory and the in-memory cache.
module MemoryCache {
  import opened Prelude
  import opened Records
  import opened LogText
  import opened Selection
  import opened Retention
  import opened StoreModel
  import opened StoreTheorems

  // ----- the data directory -----

  /** The table logs and the temp files beside them; an absent log is an empty one. */
  class DataDirectory {
    var logs: Files
    var temps: map<Table, seq<byte>>

    constructor (files: Files)
      ensures logs == files && temps == map[]
    {
      logs, temps := files, map[];
    }

    /** One `write_all` of a line on a file opened for append. */
    method Append(t: Table, bytes: seq<byte>)
      modifies this
      ensures logs == old(logs)[t := old(logs)[t] + bytes] && temps == old(temps)
    {
      logs := logs[t := logs[t] + bytes];
    }

    method WriteTemp(t: Table, bytes: seq<byte>)
      modifies this
      ensures logs == old(logs) && temps == old(temps)[t := bytes]
    {
      temps := temps[t := bytes];
    }

    method RenameTemp(t: Table)
      requires t in temps
      modifies this
      ensures logs == old(logs)[t := old(temps)[t]] && temps == old(temps) - {t}
    {
      logs := logs[t := temps[t]];
      temps := temps - {t};
    }
  }

  // ----- the in-memory cache -----

  class InMemoryCache {
    const c: Codec
    var tables: Mem

    constructor (c: Codec)
      ensures this.c == c && tables == EmptyMem()
    {
      this.c := c;
      tables := EmptyMem();
    }

    ghost predicate Valid()
      reads this
    {
      MemKeyed(tables)
    }

    /** Every upsert and append: validate, then insert, or keep the first. */
    method Apply(r: Record) returns (ok: bool)
      modifies this
      ensures ok == c.accepts(r)
      ensures tables == MemWrite(c, old(tables), r)
    {
      ok := c.accepts(r);
      if ok {
        var t := TableOf(r);
        var table := tables[t];
        if LastWins(t) || KeyOf(r) !in table {
          tables := tables[t := table[KeyOf(r) := r]];
        } else {
          hide TableOf, LastWins;
          SameValue(tables, t);
        }
      }
    }

    method Lookup(q: Query) returns (rows: seq<Record>)
      ensures rows == MemAnswer(q, tables[QueryTable(q)])
    {
      rows := MemAnswer(q, tables[QueryTable(q)]);
    }

    /** Receipts past the cap of their profile go, with their partitions. */
    method EvictReceipts(max: nat) returns (evicted: nat)
      requires Keyed(QueryReceipts, tables[QueryReceipts])
      modifies this
      ensures tables == AfterReceipts(old(tables), Some(max))
      ensures evicted == |Evicted(old(tables)[QueryReceipts], max)|
    {
      hide Kept, Evicted, WithoutReceipts, Keyed;
      EvictedSize(tables[QueryReceipts], max);
      var kept, dropIds, n := RetainTable(QueryReceipts, tables[QueryReceipts], max);
      tables := tables[QueryReceipts := kept][PartitionMetadata := WithoutReceipts(tables[PartitionMetadata], dropIds)];
      evicted := n;
    }

    /** Snapshots past the cap of their scope go. */
    method EvictSnapshots(max: nat) returns (evicted: nat)
      requires Keyed(CatalogSnapshots, tables[CatalogSnapshots])
      modifies this
      ensures tables == AfterSnapshots(old(tables), Some(max))
      ensures evicted == |Evicted(old(tables)[CatalogSnapshots], max)|
    {
      hide Kept, Evicted, Keyed;
      EvictedSize(tables[CatalogSnapshots], max);
      var kept, dropIds, n := RetainTable(CatalogSnapshots, tables[CatalogSnapshots], max);
      tables := tables[CatalogSnapshots := kept];
      evicted := n;
    }

    /** The receipts' half of the policy. */
    method RetainReceipts(cap: Option<nat>) returns (evicted: nat)
      requires Keyed(QueryReceipts, tables[QueryReceipts])
      modifies this
      ensures tables == AfterReceipts(old(tables), cap)
      ensures evicted == CapCount(old(tables)[QueryReceipts], cap)
    {
      hide Keyed, Evicted, Kept, WithoutReceipts;
      evicted := 0;
      if cap.Some? {
        evicted := EvictReceipts(cap.value);
      }
    }

    /** The snapshots' half of the policy. */
    method RetainSnapshots(cap: Option<nat>) returns (evicted: nat)
      requires Keyed(CatalogSnapshots, tables[CatalogSnapshots])
      modifies this
      ensures tables == AfterSnapshots(old(tables), cap)
      ensures evicted == CapCount(old(tables)[CatalogSnapshots], cap)
    {
      hide Keyed, Evicted, Kept;
      evicted := 0;
      if cap.Some? {
        evicted := EvictSnapshots(cap.value);
      }
    }

    method ApplyRetention(policy: RetentionPolicy) returns (evicted: nat)
      requires Valid()
      modifies this
      ensures tables == MemRetain(old(tables), policy)
      ensures evicted == RetainCount(old(tables), policy)
    {
      assert Keyed(QueryReceipts, tables[QueryReceipts]);
      AfterReceiptsKeeps(tables, policy.maxReceiptsPerProfile);
      hide *;
      RetainCountIs(tables, policy);
      RetainedTables(tables, policy);
      var receipts := RetainReceipts(policy.maxReceiptsPerProfile);
      var snapshots := RetainSnapshots(policy.maxSnapshotsPerScope);
      evicted := receipts + snapshots;
    }
  }

  function CapCount(m: TableMap, cap: Option<nat>): nat {
    match cap case None => 0 case Some(max) => |Evicted(m, max)|
  }

  function AfterReceipts(mem: Mem, cap: Option<nat>): Mem {
    match cap
    case None => mem
    case Some(max) =>
      mem[QueryReceipts := Kept(mem[QueryReceipts], max)]
         [PartitionMetadata := WithoutReceipts(mem[PartitionMetadata], Evicted(mem[QueryReceipts], max))]
  }

  function AfterSnapshots(mem: Mem, cap: Option<nat>): Mem {
    match cap
    case None => mem
    case Some(max) => mem[CatalogSnapshots := Kept(mem[CatalogSnapshots], max)]
  }

  lemma AfterReceiptsKeeps(mem: Mem, cap: Option<nat>)
    requires MemKeyed(mem)
    ensures AfterReceipts(mem, cap)[CatalogSnapshots] == mem[CatalogSnapshots]
    ensures Keyed(CatalogSnapshots, AfterReceipts(mem, cap)[CatalogSnapshots])
  {
    hide Kept, Evicted, WithoutReceipts, Keyed;
  }

  lemma RetainCountIs(mem: Mem, policy: RetentionPolicy)
    ensures RetainCount(mem, policy)
         == CapCount(mem[QueryReceipts], policy.maxReceiptsPerProfile)
            + CapCount(mem[CatalogSnapshots], policy.maxSnapshotsPerScope)
  {
    hide Evicted;
  }

  lemma AfterReceiptsAt(mem: Mem, policy: RetentionPolicy, t: Table)
    ensures AfterReceipts(mem, policy.maxReceiptsPerProfile)[t]
         == if t.CatalogSnapshots? then mem[t] else RetainedTable(mem, policy, t)
  {
    hide Kept, Evicted, WithoutReceipts;
  }

  lemma AfterSnapshotsAt(mem: Mem, base: Mem, policy: RetentionPolicy, t: Table)
    requires base[CatalogSnapshots] == mem[CatalogSnapshots]
    ensures AfterSnapshots(base, policy.maxSnapshotsPerScope)[t]
         == if t.CatalogSnapshots? then RetainedTable(mem, policy, t) else base[t]
  {
    hide Kept, Evicted, WithoutReceipts;
  }

  /** The two evictions, one after the other, leave the retained tables. */
  lemma RetainedTables(mem: Mem, policy: RetentionPolicy)
    ensures AfterSnapshots(AfterReceipts(mem, policy.maxReceiptsPerProfile), policy.maxSnapshotsPerScope)
         == MemRetain(mem, policy)
  {
    hide AfterSnapshots, AfterReceipts, RetainedTable;
    var base := AfterReceipts(mem, policy.maxReceiptsPerProfile);
    AfterReceiptsAt(mem, policy, CatalogSnapshots);
    var after := AfterSnapshots(base, policy.maxSnapshotsPerScope);
    forall t: Table
      ensures after[t] == MemRetain(mem, policy)[t]
    {
      AfterReceiptsAt(mem, policy, t);
      AfterSnapshotsAt(mem, base, policy, t);
    }
    hide MemRetain;
    SameTables(after, MemRetain(mem, policy));
  }
}
