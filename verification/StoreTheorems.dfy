// Every step of the file store keeps its invariant and moves the durable tables as the
// in-memory store moves; so every run answers like it.
module StoreTheorems {
  import opened Prelude
  import opened Records
  import opened LogText
  import opened Utf8
  import opened Selection
  import opened Retention
  import opened StoreModel

  lemma {:induction false} PutAllAccepted(c: Codec, m: TableMap, rs: seq<Record>)
    requires forall k :: k in m ==> c.accepts(m[k])
    requires forall r :: r in rs ==> c.accepts(r)
    ensures forall k :: k in PutAll(m, rs) ==> c.accepts(PutAll(m, rs)[k])
    decreases |rs|
  {
    if rs != [] {
      assert rs[0] in rs && forall r :: r in rs[1..] ==> r in rs;
      PutAllAccepted(c, Put(m, rs[0]), rs[1..]);
    }
  }

  /** Reopening gives well-formed tables. */
  lemma ContentsOk(c: Codec, t: Table, text: seq<byte>)
    requires Faithful(c)
    ensures TableOk(c, t, Contents(c, t, text))
    ensures |Contents(c, t, text)| <= |ValidRecords(c, t, text)|
  {
    ContentsKeyed(c, t, text);
    ParseLinesSound(c, t, Lines(Complete(text)));
    PutAllAccepted(c, map[], ValidRecords(c, t, text));
  }

  // ----- one table -----

  /** A loaded table of a store that meets its invariant. */
  predicate LoadedOk(c: Codec, t: Table, s: TableState) {
    TableInv(c, t, s) && s.loaded
  }

  lemma LoadKeeps(c: Codec, t: Table, s: TableState)
    requires TableInv(c, t, s)
    ensures LoadedOk(c, t, LoadTable(c, t, s)) && LoadTable(c, t, s).text == s.text
  {
    hide ValidRecords, Whole, IsUtf8, PutAll;
  }

  lemma AppendKeeps(c: Codec, s: TableState, r: Record)
    requires Faithful(c) && c.accepts(r) && LoadedOk(c, TableOf(r), s)
    ensures LoadedOk(c, TableOf(r), AppendRecord(c, s, r))
  {
    AppendAddsRecord(c, s.text, r);
    EncodedIsText(c, r);
    AppendUtf8(s.text, EncodedLine(c, r));
    PutAllSnoc(map[], ValidRecords(c, TableOf(r), s.text), r);
    hide ValidRecords, Whole, IsUtf8, PutAll;
  }

  /** Whatever well-formed map a loaded table has, rewriting its log makes the two agree. */
  lemma RewriteKeeps(c: Codec, t: Table, s: TableState)
    requires Faithful(c) && s.loaded && TableOk(c, t, s.mem)
    ensures LoadedOk(c, t, RewriteTable(c, s))
  {
    RewriteKeepsContents(c, t, s.mem);
    hide Contents, ValidRecords, Whole, IsUtf8;
  }

  lemma LoadedMapOk(c: Codec, t: Table, s: TableState)
    requires Faithful(c) && LoadedOk(c, t, s)
    ensures TableOk(c, t, s.mem) && |s.mem| <= s.lines
  {
    ContentsOk(c, t, s.text);
  }

  lemma CompactionIs(c: Codec, s: TableState)
    ensures CompactTable(c, s) in {s, RewriteTable(c, s)} && LazyCompact(c, s) in {s, RewriteTable(c, s)}
    ensures RewriteTable(c, s).mem == s.mem
  {
    hide EncodeAll, Values;
  }

  lemma CompactKeeps(c: Codec, t: Table, s: TableState)
    requires Faithful(c) && LoadedOk(c, t, s)
    ensures LoadedOk(c, t, CompactTable(c, s)) && CompactTable(c, s).mem == s.mem
    ensures LoadedOk(c, t, LazyCompact(c, s)) && LazyCompact(c, s).mem == s.mem
  {
    hide *;
    LoadedMapOk(c, t, s);
    LoadedIsLoaded(c, t, s);
    RewriteKeeps(c, t, s);
    CompactionIs(c, s);
  }

  lemma LoadedIsLoaded(c: Codec, t: Table, s: TableState)
    requires LoadedOk(c, t, s)
    ensures s.loaded && s.mem == Contents(c, t, s.text)
  {
  }

  lemma WriteKeeps(c: Codec, s: TableState, r: Record)
    requires Faithful(c) && TableInv(c, TableOf(r), s)
    ensures LoadedOk(c, TableOf(r), WriteTable(c, TableOf(r), s, r))
    ensures Contents(c, TableOf(r), WriteTable(c, TableOf(r), s, r).text)
         == if c.accepts(r) then Put(Contents(c, TableOf(r), s.text), r) else Contents(c, TableOf(r), s.text)
  {
    var t := TableOf(r);
    var loaded := LoadTable(c, t, s);
    LoadKeeps(c, t, s);
    LoadedIsLoaded(c, t, loaded);
    hide Contents, ValidRecords, Whole, IsUtf8, LoadedOk, TableInv, Put, LazyCompact, LoadTable;
    if c.accepts(r) {
      AppendKeeps(c, loaded, r);
      CompactKeeps(c, t, AppendRecord(c, loaded, r));
    }
    LoadedIsLoaded(c, t, WriteTable(c, t, s, r));
  }

  // ----- retention on well-formed tables -----

  /** The tables that a policy concerns. */
  predicate RetentionTouches(policy: RetentionPolicy, t: Table) {
    || (policy.maxReceiptsPerProfile.Some? && (t.QueryReceipts? || t.PartitionMetadata?))
    || (policy.maxSnapshotsPerScope.Some? && t.CatalogSnapshots?)
  }

  lemma RetentionTablesAre(policy: RetentionPolicy, t: Table)
    ensures t in RetentionTables(policy) <==> RetentionTouches(policy, t)
  {
  }

  ghost predicate MemKeyed(mem: Mem) {
    forall t: Table :: Keyed(t, mem[t])
  }

  lemma RetentionKeepsKeys(mem: Mem, policy: RetentionPolicy)
    requires MemKeyed(mem)
    ensures MemKeyed(MemRetain(mem, policy))
  {
    forall t: Table
      ensures Keyed(t, MemRetain(mem, policy)[t])
    {
      assert Keyed(t, mem[t]);
      hide Newer, Evicted;
    }
  }

  lemma RetainedOk(c: Codec, mem: Mem, policy: RetentionPolicy, t: Table)
    requires TableOk(c, t, mem[t])
    ensures TableOk(c, t, RetainedTable(mem, policy, t))
  {
    hide Newer, Evicted;
  }

  lemma NoneEvicted(m: TableMap, max: nat)
    requires |Evicted(m, max)| == 0
    ensures Kept(m, max) == m && Evicted(m, max) == {}
  {
    EvictedRest(m, max);
    hide Kept, Evicted;
    assert Evicted(m, max) == {};
    assert m - {} == m;
  }

  /** Nothing counted, nothing changed. */
  lemma NothingEvicted(mem: Mem, policy: RetentionPolicy, t: Table)
    requires RetainCount(mem, policy) == 0
    ensures RetainedTable(mem, policy, t) == mem[t]
  {
    hide Kept, Evicted, WithoutReceipts;
    if policy.maxReceiptsPerProfile.Some? {
      NoneEvicted(mem[QueryReceipts], policy.maxReceiptsPerProfile.value);
      WithoutNone(mem[PartitionMetadata]);
    }
    if policy.maxSnapshotsPerScope.Some? {
      NoneEvicted(mem[CatalogSnapshots], policy.maxSnapshotsPerScope.value);
    }
  }

  lemma WithoutNone(partitions: TableMap)
    ensures WithoutReceipts(partitions, {}) == partitions
  {
  }

  /** Retention reads only the tables it loads. */
  lemma RetainedReads(a: Mem, b: Mem, policy: RetentionPolicy)
    requires forall t: Table :: RetentionTouches(policy, t) ==> a[t] == b[t]
    ensures RetainCount(a, policy) == RetainCount(b, policy)
    ensures forall t: Table :: RetentionTouches(policy, t) ==> RetainedTable(a, policy, t) == RetainedTable(b, policy, t)
  {
    hide Kept, Evicted, WithoutReceipts;
    assert policy.maxReceiptsPerProfile.Some? ==> RetentionTouches(policy, QueryReceipts);
    assert policy.maxSnapshotsPerScope.Some? ==> RetentionTouches(policy, CatalogSnapshots);
  }

  /** One table once its map is the retained one, and its log perhaps rewritten. */
  function RetainState(c: Codec, s: TableState, retained: TableMap, rewrite: bool): TableState {
    if rewrite then RewriteTable(c, s.(mem := retained)) else s.(mem := retained)
  }

  /** One table through retention. */
  lemma RetainStateKeeps(c: Codec, t: Table, s: TableState, retained: TableMap, touched: bool, evicted: bool)
    requires Faithful(c) && TableInv(c, t, s) && TableOk(c, t, retained)
    requires touched ==> s.loaded
    requires !touched || !evicted ==> retained == s.mem
    ensures TableInv(c, t, RetainState(c, s, retained, evicted && touched))
    ensures RetainState(c, s, retained, evicted && touched).loaded == s.loaded
    ensures touched ==> Contents(c, t, RetainState(c, s, retained, evicted && touched).text) == retained
    ensures !touched ==> RetainState(c, s, retained, evicted && touched) == s
  {
    if touched && evicted {
      RewriteKeeps(c, t, s.(mem := retained));
    }
    hide Contents, ValidRecords, Whole, IsUtf8;
  }

  // ----- the whole store -----

  lemma OpenInv(c: Codec, files: Files)
    requires forall t: Table :: Whole(files[t]) && IsUtf8(files[t])
    ensures Inv(c, Open(files))
  {
    hide Contents, ValidRecords, Whole, IsUtf8;
  }

  lemma SameTables(a: Mem, b: Mem)
    requires forall t: Table :: a[t] == b[t]
    ensures a == b
  {
    assert a.Keys == b.Keys;
  }

  /** Replacing one table by a well-formed one. */
  lemma TableStep(c: Codec, s: Store, t: Table, next: TableState)
    requires Inv(c, s) && TableInv(c, t, next)
    ensures Inv(c, s[t := next])
  {
    hide Contents, TableInv;
    var s' := s[t := next];
    forall u: Table
      ensures TableInv(c, u, s'[u])
    {
      assert TableInv(c, u, s[u]);
    }
  }

  lemma InvAt(c: Codec, s: Store, t: Table)
    requires Inv(c, s)
    ensures TableInv(c, t, s[t])
  {
  }

  lemma DurableAt(c: Codec, s: Store, t: Table)
    ensures Durable(c, s)[t] == Contents(c, t, s[t].text)
  {
    hide Contents;
  }

  lemma SetDurableAt(c: Codec, s: Store, t: Table, next: TableState, after: Store, u: Table)
    requires after == s[t := next]
    ensures Durable(c, after)[u] == if u == t then Contents(c, t, next.text) else Durable(c, s)[u]
  {
    hide *;
    DurableAt(c, s, u);
    DurableAt(c, after, u);
  }

  lemma SetDurable(c: Codec, s: Store, t: Table, next: TableState, after: Store, moved: Mem)
    requires after == s[t := next] && moved == Durable(c, s)[t := Contents(c, t, next.text)]
    ensures Durable(c, after) == moved
  {
    hide *;
    forall u: Table
      ensures Durable(c, after)[u] == moved[u]
    {
      SetDurableAt(c, s, t, next, after, u);
    }
    SameTables(Durable(c, after), moved);
  }

  lemma DurableStep(c: Codec, s: Store, t: Table, next: TableState)
    ensures Durable(c, s[t := next]) == Durable(c, s)[t := Contents(c, t, next.text)]
  {
    hide *;
    SetDurable(c, s, t, next, s[t := next], Durable(c, s)[t := Contents(c, t, next.text)]);
  }

  lemma SameValue(mem: Mem, t: Table)
    ensures mem[t := mem[t]] == mem
  {
  }

  lemma LoadInv(c: Codec, s: Store, t: Table)
    requires Inv(c, s)
    ensures Loads(s[t])
    ensures Inv(c, Load(c, s, t)) && Durable(c, Load(c, s, t)) == Durable(c, s)
    ensures Load(c, s, t)[t].loaded && Load(c, s, t)[t].mem == Durable(c, s)[t]
    ensures forall u: Table :: s[u].loaded ==> Load(c, s, t)[u].loaded
  {
    InvLoads(c, s, t);
    LoadKeeps(c, t, s[t]);
    LoadedIsLoaded(c, t, LoadTable(c, t, s[t]));
    TableStep(c, s, t, LoadTable(c, t, s[t]));
    DurableStep(c, s, t, LoadTable(c, t, s[t]));
    hide Contents, LoadTable, TableInv, Inv, Loads;
    DurableAt(c, s, t);
    SameValue(Durable(c, s), t);
  }

  lemma InvLoads(c: Codec, s: Store, t: Table)
    requires Inv(c, s)
    ensures Loads(s[t]) && TableInv(c, t, s[t])
  {
    hide IsUtf8, Whole, Contents, ValidRecords;
  }

  /** Under the invariant every load succeeds. */
  lemma {:induction false} LoadInOrderInv(c: Codec, s: Store, ts: seq<Table>)
    requires Inv(c, s)
    ensures LoadInOrder(c, s, ts).1
    ensures Inv(c, LoadInOrder(c, s, ts).0) && Durable(c, LoadInOrder(c, s, ts).0) == Durable(c, s)
    ensures forall t: Table :: t in ts || s[t].loaded ==> LoadInOrder(c, s, ts).0[t].loaded
    decreases |ts|
  {
    if ts != [] {
      LoadInv(c, s, ts[0]);
      hide Load, Inv, Durable, Loads;
      LoadInOrderInv(c, Load(c, s, ts[0]), ts[1..]);
      assert forall t: Table :: t in ts ==> t == ts[0] || t in ts[1..];
    }
  }

  lemma WriteInv(c: Codec, s: Store, r: Record)
    requires Faithful(c) && Inv(c, s)
    ensures Inv(c, Write(c, s, r)) && Durable(c, Write(c, s, r)) == MemWrite(c, Durable(c, s), r)
  {
    var t := TableOf(r);
    hide Contents, WriteTable, Put, TableOf, TableInv, Inv;
    assert TableInv(c, t, s[t]) by {
      InvAt(c, s, t);
    }
    WriteKeeps(c, s[t], r);
    TableStep(c, s, t, WriteTable(c, t, s[t], r));
    DurableStep(c, s, t, WriteTable(c, t, s[t], r));
    DurableAt(c, s, t);
    SameValue(Durable(c, s), t);
  }

  lemma CompactOneInv(c: Codec, s: Store, t: Table)
    requires Faithful(c) && Inv(c, s) && s[t].loaded
    ensures Inv(c, CompactOne(c, s, t)) && Durable(c, CompactOne(c, s, t)) == Durable(c, s)
    ensures forall u: Table :: s[u].loaded ==> CompactOne(c, s, t)[u].loaded
  {
    hide *;
    InvAt(c, s, t);
    LoadedIs(c, t, s[t]);
    CompactKeeps(c, t, s[t]);
    LoadedIsLoaded(c, t, s[t]);
    LoadedIs(c, t, CompactTable(c, s[t]));
    LoadedIsLoaded(c, t, CompactTable(c, s[t]));
    TableStep(c, s, t, CompactTable(c, s[t]));
    DurableStep(c, s, t, CompactTable(c, s[t]));
    CompactOneIs(c, s, t);
    DurableAt(c, s, t);
    SameValue(Durable(c, s), t);
  }

  lemma LoadedIs(c: Codec, t: Table, s: TableState)
    ensures LoadedOk(c, t, s) <==> TableInv(c, t, s) && s.loaded
  {
    hide TableInv;
  }

  lemma CompactOneIs(c: Codec, s: Store, t: Table)
    ensures CompactOne(c, s, t) == s[t := CompactTable(c, s[t])]
  {
    hide CompactTable;
  }

  lemma CompactOneAt(c: Codec, s: Store, u: Table, t: Table)
    ensures CompactOne(c, s, u)[t] == if t == u then CompactTable(c, s[t]) else s[t]
  {
    hide CompactTable;
  }

  lemma CompactIs(c: Codec, s: Store)
    ensures var (loaded, ok) := LoadInOrder(c, s, UpsertTables());
      Compact(c, s)
      == (if ok then CompactOne(c, CompactOne(c, CompactOne(c, loaded, Profiles), DatasetManifests), QueryPlans)
          else loaded, ok)
  {
    hide LoadInOrder, UpsertTables, CompactOne;
  }

  lemma CompactInv(c: Codec, s: Store)
    requires Faithful(c) && Inv(c, s)
    ensures Compact(c, s).1 && Inv(c, Compact(c, s).0) && Durable(c, Compact(c, s).0) == Durable(c, s)
  {
    assert Profiles in UpsertTables() && DatasetManifests in UpsertTables() && QueryPlans in UpsertTables();
    hide LoadInOrder, CompactOne, Inv, Durable, UpsertTables;
    LoadInOrderInv(c, s, UpsertTables());
    var s1 := LoadInOrder(c, s, UpsertTables()).0;
    var s2 := CompactOne(c, s1, Profiles);
    CompactOneInv(c, s1, Profiles);
    CompactOneInv(c, s2, DatasetManifests);
    CompactOneInv(c, CompactOne(c, s2, DatasetManifests), QueryPlans);
  }

  // ----- operations, table by table -----

  lemma SetKeyed(tables: Mem, t: Table, m: TableMap, next: Mem)
    requires MemKeyed(tables) && Keyed(t, m) && next == tables[t := m]
    ensures MemKeyed(next)
  {
    hide Keyed;
    forall u: Table
      ensures Keyed(u, next[u])
    {
    }
  }

  lemma LoadAt(c: Codec, s: Store, u: Table, t: Table)
    ensures Load(c, s, u)[t] == if t == u then LoadTable(c, t, s[t]) else s[t]
  {
    hide LoadTable;
  }

  lemma RewriteOneAt(c: Codec, s: Store, u: Table, t: Table)
    ensures RewriteOne(c, s, u)[t] == if t == u then RewriteTable(c, s[t]) else s[t]
  {
    hide RewriteTable;
  }

  lemma RewriteTwice(c: Codec, s: TableState)
    ensures RewriteTable(c, RewriteTable(c, s)) == RewriteTable(c, s)
  {
    hide EncodeAll, Values;
  }

  lemma {:induction false} RewriteAllAt(c: Codec, s: Store, ts: seq<Table>, t: Table)
    ensures RewriteAll(c, s, ts)[t] == if t in ts then RewriteTable(c, s[t]) else s[t]
    decreases |ts|
  {
    if ts != [] {
      RewriteOneAt(c, s, ts[0], t);
      RewriteTwice(c, s[t]);
      hide RewriteOne, RewriteTable;
      RewriteAllAt(c, RewriteOne(c, s, ts[0]), ts[1..], t);
      assert t in ts <==> t == ts[0] || t in ts[1..];
    }
  }

  lemma EvictInAt(s: Store, policy: RetentionPolicy, t: Table)
    ensures EvictIn(s, policy)[t] == s[t].(mem := RetainedTable(MemOf(s), policy, t))
  {
    hide RetainedTable, MemOf;
  }

  lemma RetainLoadedAt(c: Codec, s: Store, policy: RetentionPolicy, t: Table)
    ensures RetainLoaded(c, s, policy)[t]
         == RetainState(c, s[t], RetainedTable(MemOf(s), policy, t),
              RetainCount(MemOf(s), policy) > 0 && RetentionTouches(policy, t))
  {
    hide RetainedTable, MemOf, RetainCount, RetentionTouches, RewriteAll, EvictIn, RetentionTables, RewriteTable;
    EvictInAt(s, policy, t);
    RetentionTablesAre(policy, t);
    RewriteAllAt(c, EvictIn(s, policy), RetentionTables(policy), t);
  }

  /** A table that the policy does not concern is left as it is, log, map and all. */
  lemma UntouchedByRetention(c: Codec, s: Store, policy: RetentionPolicy, t: Table)
    requires !RetentionTouches(policy, t)
    ensures RetainLoaded(c, s, policy)[t] == s[t]
  {
    assert MemOf(s)[t] == s[t].mem;
    UntouchedMap(MemOf(s), policy, t);
    hide RetainLoaded, MemOf, RetainedTable, RetentionTouches;
    RetainLoadedAt(c, s, policy, t);
  }

  lemma UntouchedMap(mem: Mem, policy: RetentionPolicy, t: Table)
    requires !RetentionTouches(policy, t)
    ensures RetainedTable(mem, policy, t) == mem[t]
  {
  }

  /** One table of the store through retention. */
  lemma RetainTableInv(c: Codec, s: Store, policy: RetentionPolicy, durable: Mem, t: Table)
    requires Faithful(c) && TableInv(c, t, s[t]) && Contents(c, t, s[t].text) == durable[t]
    requires RetentionTouches(policy, t) ==> s[t].loaded
    requires RetentionTouches(policy, t) ==>
      RetainedTable(MemOf(s), policy, t) == RetainedTable(durable, policy, t)
    ensures TableInv(c, t, RetainLoaded(c, s, policy)[t])
    ensures Contents(c, t, RetainLoaded(c, s, policy)[t].text) == RetainedTable(durable, policy, t)
  {
    var mem := MemOf(s);
    assert mem[t] == s[t].mem;
    hide *;
    UnloadedOk(c, t, s[t]);
    ContentsOk(c, t, s[t].text);
    RetainedOk(c, mem, policy, t);
    RetainedOk(c, durable, policy, t);
    var evicted, touched := RetainCount(mem, policy) > 0, RetentionTouches(policy, t);
    if !evicted {
      NothingEvicted(mem, policy, t);
    }
    if !touched {
      UntouchedMap(mem, policy, t);
      UntouchedMap(durable, policy, t);
    }
    RetainLoadedAt(c, s, policy, t);
    RetainStateKeeps(c, t, s[t], RetainedTable(mem, policy, t), touched, evicted);
  }

  /** A touched table of a store that meets its invariant has its durable map in memory. */
  lemma TouchedAgree(c: Codec, s: Store, policy: RetentionPolicy)
    requires Inv(c, s) && forall t: Table :: RetentionTouches(policy, t) ==> s[t].loaded
    ensures forall t: Table :: RetentionTouches(policy, t) ==> MemOf(s)[t] == Durable(c, s)[t]
  {
    hide Contents, ValidRecords, Whole, IsUtf8, RetentionTouches;
    forall t: Table | RetentionTouches(policy, t)
      ensures MemOf(s)[t] == Durable(c, s)[t]
    {
      assert TableInv(c, t, s[t]);
    }
  }

  lemma RetainInv(c: Codec, s: Store, policy: RetentionPolicy)
    requires Faithful(c) && Inv(c, s)
    ensures Inv(c, Retain(c, s, policy).0) && Durable(c, Retain(c, s, policy).0) == MemRetain(Durable(c, s), policy)
    ensures Retain(c, s, policy).1 == EvictedCount(RetainCount(Durable(c, s), policy))
  {
    var s1 := LoadInOrder(c, s, RetentionTables(policy)).0;
    LoadInOrderInv(c, s, RetentionTables(policy));
    forall t: Table | RetentionTouches(policy, t)
      ensures s1[t].loaded
    {
      RetentionTablesAre(policy, t);
    }
    assert Retain(c, s, policy)
      == (RetainLoaded(c, s1, policy), EvictedCount(RetainCount(MemOf(s1), policy)));
    hide LoadInOrder, RetentionTables, Retain, RetentionTouches, Durable, MemOf, RetainLoaded, RetainedTable,
      RetainCount;
    TouchedAgree(c, s1, policy);
    RetainedReads(MemOf(s1), Durable(c, s), policy);
    RetainLoadedInv(c, s1, policy, Durable(c, s));
  }

  lemma RetainLoadedInv(c: Codec, s1: Store, policy: RetentionPolicy, durable: Mem)
    requires Faithful(c) && Inv(c, s1) && durable == Durable(c, s1)
    requires forall t: Table :: RetentionTouches(policy, t) ==> s1[t].loaded
    requires forall t: Table :: RetentionTouches(policy, t) ==>
      RetainedTable(MemOf(s1), policy, t) == RetainedTable(durable, policy, t)
    ensures Inv(c, RetainLoaded(c, s1, policy)) && Durable(c, RetainLoaded(c, s1, policy)) == MemRetain(durable, policy)
  {
    var s2 := RetainLoaded(c, s1, policy);
    hide Contents, RetainLoaded, RetentionTouches, RetainedTable, TableInv, MemOf;
    forall t: Table
      ensures TableInv(c, t, s2[t])
      ensures Contents(c, t, s2[t].text) == RetainedTable(durable, policy, t)
    {
      assert TableInv(c, t, s1[t]);
      DurableAt(c, s1, t);
      RetainTableInv(c, s1, policy, durable, t);
    }
    assert forall t: Table :: Durable(c, s2)[t] == MemRetain(durable, policy)[t];
    hide MemRetain, Durable;
    SameTables(Durable(c, s2), MemRetain(durable, policy));
  }

  lemma UnloadedOk(c: Codec, t: Table, s: TableState)
    requires Faithful(c) && TableInv(c, t, s)
    ensures TableOk(c, t, s.mem)
  {
    ContentsOk(c, t, s.text);
  }

  /** One operation: the invariant stays, the durable tables move as the in-memory
      store does, and the answer is the in-memory one. */
  lemma StepAgrees(c: Codec, s: Store, op: Op)
    requires Faithful(c) && Inv(c, s)
    ensures Inv(c, StoreStep(c, s, op).0)
    ensures MemStep(c, Durable(c, s), op) == (Durable(c, StoreStep(c, s, op).0), StoreStep(c, s, op).1)
  {
    hide Contents, ValidRecords, Whole, IsUtf8, Loads, Load, Write, Compact, Retain, RetainCount, MemRetain,
      TableInv, MemAnswer, MemWrite;
    match op
    case WriteRecord(r) =>
      InvLoads(c, s, TableOf(r));
      WriteInv(c, s, r);
    case Ask(q) => LoadInv(c, s, QueryTable(q));
    case CompactAll => CompactInv(c, s);
    case ApplyRetention(policy) => RetainInv(c, s, policy);
    case Reopen => ReopenInv(c, s);
  }

  lemma ReopenInv(c: Codec, s: Store)
    requires Inv(c, s)
    ensures Inv(c, Open(FilesOf(s))) && Durable(c, Open(FilesOf(s))) == Durable(c, s)
  {
    hide Contents, ValidRecords, Whole, IsUtf8;
    forall t: Table
      ensures TableInv(c, t, Open(FilesOf(s))[t])
    {
      assert TableInv(c, t, s[t]);
    }
  }

  /** Every run of the file store, reopened anywhere, compacted anyhow and touching
      its tables in any order, gives the answers of one in-memory store that starts
      with what the directory holds; and so it ends with the same tables. */
  lemma {:induction false} RunsAgree(c: Codec, s: Store, ops: seq<Op>)
    requires Faithful(c) && Inv(c, s)
    ensures Inv(c, StoreRun(c, s, ops).0)
    ensures MemRun(c, Durable(c, s), ops) == (Durable(c, StoreRun(c, s, ops).0), StoreRun(c, s, ops).1)
    decreases |ops|
  {
    if ops != [] {
      StepAgrees(c, s, ops[0]);
      hide StoreStep, MemStep, Durable, Inv;
      RunsAgree(c, StoreStep(c, s, ops[0]).0, ops[1..]);
    }
  }

  lemma EmptyContents(c: Codec, t: Table)
    ensures Contents(c, t, []) == map[]
  {
    assert Complete([]) == [] && Lines([]) == [];
    assert ParseLines(c, t, []) == [] && PutAll(map[], []) == map[];
  }

  lemma EmptyDirectory(c: Codec, files: Files)
    requires forall t: Table :: files[t] == []
    ensures Inv(c, Open(files)) && Durable(c, Open(files)) == EmptyMem()
  {
    assert Whole([]) && IsUtf8([]);
    OpenInv(c, files);
    hide Contents, Inv, Whole, IsUtf8;
    forall t: Table
      ensures Durable(c, Open(files))[t] == EmptyMem()[t]
    {
      EmptyContents(c, t);
    }
    hide *;
    SameTables(Durable(c, Open(files)), EmptyMem());
  }

  /** From an empty directory the reference starts empty. */
  lemma RunsFromEmptyDirectory(c: Codec, files: Files, ops: seq<Op>)
    requires Faithful(c) && forall t: Table :: files[t] == []
    ensures StoreRun(c, Open(files), ops).1 == MemRun(c, EmptyMem(), ops).1
  {
    hide *;
    EmptyDirectory(c, files);
    RunsAgree(c, Open(files), ops);
  }
}
