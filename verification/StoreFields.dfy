// The file cache's fields - logs, maps, loaded-table mask, line counts - and the store
// they stand for: what each effect on the fields is on the store.
module StoreFields {
  import opened Records
  import opened LogText
  import opened Utf8
  import opened Retention
  import opened StoreModel
  import opened StoreTheorems

  // ----- the loaded-table mask -----

  function Index(t: Table): (i: nat)
    ensures i < 10
  {
    match t
    case Profiles => 0
    case CatalogSnapshots => 1
    case DatasetManifests => 2
    case QueryPlans => 3
    case QueryReceipts => 4
    case PartitionMetadata => 5
    case Exports => 6
    case CostHistory => 7
    case ReplayBundles => 8
    case AuditLog => 9
  }

  function Bit(t: Table): bv16 {
    (1 as bv16) << Index(t)
  }

  predicate HasBit(mask: bv16, t: Table) {
    mask & Bit(t) != 0
  }

  lemma IndexIsInjective(t: Table, u: Table)
    requires Index(t) == Index(u)
    ensures t == u
  {
  }

  function PowerOfTwo(i: nat): bv16 {
    match i
    case 0 => 0x1
    case 1 => 0x2
    case 2 => 0x4
    case 3 => 0x8
    case 4 => 0x10
    case 5 => 0x20
    case 6 => 0x40
    case 7 => 0x80
    case 8 => 0x100
    case _ => 0x200
  }

  lemma ShiftedBit(i: nat)
    requires i < 10
    ensures (1 as bv16) << i == PowerOfTwo(i)
  {
  }

  lemma PowersDisjoint(i: nat, j: nat)
    requires i < j < 10
    ensures PowerOfTwo(i) & PowerOfTwo(j) == 0 && PowerOfTwo(j) & PowerOfTwo(i) == 0
    ensures PowerOfTwo(i) != 0 && PowerOfTwo(j) != 0
  {
  }

  lemma OrBit(mask: bv16, b: bv16, d: bv16)
    ensures b & d == 0 ==> (mask | b) & d == mask & d
    ensures b != 0 ==> (mask | b) & b != 0
  {
  }

  lemma BitIs(t: Table)
    ensures Bit(t) == PowerOfTwo(Index(t))
  {
    hide PowerOfTwo, Index;
    ShiftedBit(Index(t));
  }

  lemma BitsDisjoint(t: Table, u: Table)
    ensures Bit(t) != 0
    ensures t != u ==> Bit(t) & Bit(u) == 0
  {
    hide *;
    BitIs(t);
    BitIs(u);
    var i, j := Index(t), Index(u);
    if i < j {
      PowersDisjoint(i, j);
    } else if j < i {
      PowersDisjoint(j, i);
    } else {
      IndexIsInjective(t, u);
      if i < 9 {
        PowersDisjoint(i, i + 1);
      } else {
        PowersDisjoint(i - 1, i);
      }
    }
  }

  lemma HasBitIs(mask: bv16, t: Table)
    ensures HasBit(mask, t) <==> mask & Bit(t) != 0
  {
    hide Bit;
  }

  /** Setting a table's bit marks that table and no other. */
  lemma SetBitMarksOne(mask: bv16, t: Table, u: Table)
    ensures HasBit(mask | Bit(t), u) <==> t == u || HasBit(mask, u)
  {
    hide *;
    BitsDisjoint(t, u);
    OrBit(mask, Bit(t), Bit(u));
    HasBitIs(mask, u);
    HasBitIs(mask | Bit(t), u);
  }

  // ----- the store behind the fields -----

  datatype Fields = Fields(logs: Files, tables: Mem, mask: bv16, counts: seq<nat>)

  ghost predicate FieldsOk(c: Codec, f: Fields) {
    |f.counts| == 10 && Faithful(c) && MemKeyed(f.tables)
  }

  function StateIn(f: Fields, t: Table): TableState
    requires |f.counts| == 10
  {
    TableState(f.logs[t], f.tables[t], HasBit(f.mask, t), f.counts[Index(t)])
  }

  function StoreAt(f: Fields): Store
    requires |f.counts| == 10
  {
    map t: Table | true :: StateIn(f, t)
  }

  lemma StoreAtIs(f: Fields, t: Table)
    requires |f.counts| == 10
    ensures StoreAt(f)[t] == StateIn(f, t)
    ensures StoreAt(f)[t] == TableState(f.logs[t], f.tables[t], HasBit(f.mask, t), f.counts[Index(t)])
  {
    hide HasBit, Index;
  }

  lemma SameStore(a: Store, b: Store)
    requires forall t: Table :: a[t] == b[t]
    ensures a == b
  {
    assert a.Keys == b.Keys;
  }

  lemma IsUpdate(s: Store, t: Table, next: TableState, after: Store)
    requires forall u: Table :: after[u] == if u == t then next else s[u]
    ensures after == s[t := next]
  {
    assert after.Keys == s[t := next].Keys;
  }

  function Marked(mask: bv16, t: Table, loaded: bool): bv16 {
    if loaded && !HasBit(mask, t) then mask | Bit(t) else mask
  }

  lemma MarkedAt(mask: bv16, t: Table, loaded: bool, u: Table)
    requires HasBit(mask, t) ==> loaded
    ensures HasBit(Marked(mask, t, loaded), u) == if u == t then loaded else HasBit(mask, u)
  {
    hide HasBit, Bit;
    SetBitMarksOne(mask, t, u);
  }

  /** The fields after table `t` alone became `next`. */
  function SetTable(f: Fields, t: Table, next: TableState): Fields
    requires |f.counts| == 10
  {
    Fields(f.logs[t := next.text], f.tables[t := next.mem], Marked(f.mask, t, next.loaded),
      f.counts[Index(t) := next.lines])
  }

  lemma CountSetAt(counts: seq<nat>, t: Table, n: nat, u: Table)
    requires |counts| == 10
    ensures counts[Index(t) := n][Index(u)] == if u == t then n else counts[Index(u)]
  {
    hide Index;
    if Index(u) == Index(t) {
      IndexIsInjective(u, t);
    }
  }

  lemma SetLogAt(f: Fields, t: Table, next: TableState, u: Table)
    requires |f.counts| == 10
    ensures SetTable(f, t, next).logs[u] == if u == t then next.text else f.logs[u]
    ensures SetTable(f, t, next).tables[u] == if u == t then next.mem else f.tables[u]
  {
    hide HasBit, Index, Marked;
  }

  lemma SetCountAt(f: Fields, t: Table, next: TableState, u: Table)
    requires |f.counts| == 10
    ensures |SetTable(f, t, next).counts| == 10 && SetTable(f, t, next).mask == Marked(f.mask, t, next.loaded)
    ensures SetTable(f, t, next).counts[Index(u)] == if u == t then next.lines else f.counts[Index(u)]
  {
    hide HasBit, Index, Marked;
    CountSetAt(f.counts, t, next.lines, u);
  }

  lemma SetTableAt(f: Fields, t: Table, next: TableState, u: Table)
    requires |f.counts| == 10 && (HasBit(f.mask, t) ==> next.loaded)
    ensures |SetTable(f, t, next).counts| == 10
    ensures StateIn(SetTable(f, t, next), u) == if u == t then next else StateIn(f, u)
  {
    SetLogAt(f, t, next, u);
    SetCountAt(f, t, next, u);
    hide HasBit, Index, Marked, SetTable;
    MarkedAt(f.mask, t, next.loaded, u);
  }

  /** Changing one table's log, map, bit and count changes that table of the store. */
  lemma OneTable(f: Fields, t: Table, next: TableState)
    requires |f.counts| == 10 && (HasBit(f.mask, t) ==> next.loaded)
    ensures |SetTable(f, t, next).counts| == 10 && StoreAt(SetTable(f, t, next)) == StoreAt(f)[t := next]
  {
    var g := SetTable(f, t, next);
    hide *;
    forall u: Table
      ensures StoreAt(g)[u] == if u == t then next else StoreAt(f)[u]
    {
      StoreAtIs(f, u);
      StoreAtIs(g, u);
      SetTableAt(f, t, next, u);
    }
    IsUpdate(StoreAt(f), t, next, StoreAt(g));
  }

  lemma SameLog(logs: Files, t: Table)
    ensures logs[t := logs[t]] == logs
  {
  }

  lemma SameState(s: Store, t: Table)
    ensures s[t := s[t]] == s
  {
  }


  // ----- the effects on the fields -----

  lemma SetAgain(tables: Mem, t: Table, a: TableMap, b: TableMap)
    ensures tables[t := a][t := b] == tables[t := b] && tables[t := a][t] == a
  {
  }

  /** A log read into its map, its lines counted, and its bit set. */
  lemma ReadIsSet(c: Codec, t: Table, f: Fields, tables: Mem, counts: seq<nat>)
    requires |f.counts| == 10 && !HasBit(f.mask, t) && IsUtf8(f.logs[t])
    requires tables == f.tables[t := PutAll(f.tables[t], ValidRecords(c, t, f.logs[t]))]
    requires counts == f.counts[Index(t) := |ValidRecords(c, t, f.logs[t])|]
    ensures Fields(f.logs, tables, f.mask | Bit(t), counts) == SetTable(f, t, LoadTable(c, t, StateIn(f, t)))
  {
    hide HasBit, Bit, Index, ValidRecords, PutAll, IsUtf8;
    SameLog(f.logs, t);
  }

  /** The record of a new line, put and appended, and the line counted. */
  lemma AppendIsSet(c: Codec, r: Record, t: Table, f: Fields, logs: Files, tables: Mem, counts: seq<nat>)
    requires |f.counts| == 10 && HasBit(f.mask, t)
    requires logs == f.logs[t := f.logs[t] + EncodedLine(c, r)]
    requires tables == f.tables[t := Put(f.tables[t], r)]
    requires counts == f.counts[Index(t) := f.counts[Index(t)] + 1]
    ensures Fields(logs, tables, f.mask, counts) == SetTable(f, t, AppendRecord(c, StateIn(f, t), r))
    ensures StateIn(f, t).loaded
  {
    hide HasBit, Bit, Index, EncodedLine, Put;
  }

  /** A log rewritten to its canonical records, and counted anew. */
  lemma RewriteIsSet(c: Codec, t: Table, f: Fields, logs: Files, counts: seq<nat>)
    requires |f.counts| == 10 && HasBit(f.mask, t)
    requires logs == f.logs[t := EncodeAll(c, Values(f.tables[t]))]
    requires counts == f.counts[Index(t) := |f.tables[t]|]
    ensures Fields(logs, f.tables, f.mask, counts) == SetTable(f, t, RewriteTable(c, StateIn(f, t)))
  {
    hide HasBit, Bit, Index, EncodeAll, Values;
    SameValue(f.tables, t);
  }

  // ----- the effects on the store -----

  lemma SetTableOk(c: Codec, f: Fields, t: Table, next: TableState)
    requires FieldsOk(c, f) && |f.counts| == 10 && Keyed(t, next.mem)
    ensures FieldsOk(c, SetTable(f, t, next))
  {
    hide Keyed, Faithful, MemKeyed, Index, Marked;
    SetKeyed(f.tables, t, next.mem, f.tables[t := next.mem]);
  }

  lemma FieldsKeyed(c: Codec, f: Fields, t: Table)
    requires FieldsOk(c, f)
    ensures |f.counts| == 10 && Faithful(c) && MemKeyed(f.tables) && Keyed(t, f.tables[t])
  {
    hide Keyed, Faithful;
  }

  lemma SetTableBits(f: Fields, t: Table, next: TableState)
    requires |f.counts| == 10 && next.loaded
    ensures HasBit(SetTable(f, t, next).mask, t)
    ensures forall u: Table :: HasBit(f.mask, u) ==> HasBit(SetTable(f, t, next).mask, u)
  {
    var mask := SetTable(f, t, next).mask;
    assert mask == Marked(f.mask, t, true) by {
      hide Marked, Index;
    }
    hide *;
    MarkedAt(f.mask, t, true, t);
    forall u: Table
      ensures HasBit(f.mask, u) ==> HasBit(mask, u)
    {
      MarkedAt(f.mask, t, true, u);
    }
  }

  lemma LoadedMap(c: Codec, t: Table, s: TableState)
    requires Faithful(c) && Keyed(t, s.mem) && Loads(s)
    ensures Keyed(t, LoadTable(c, t, s).mem) && LoadTable(c, t, s).loaded
  {
    ParseLinesSound(c, t, Lines(Complete(s.text)));
    PutAllKeyed(t, s.mem, ValidRecords(c, t, s.text));
  }

  lemma LoadIs(c: Codec, s: Store, t: Table)
    ensures Load(c, s, t) == s[t := LoadTable(c, t, s[t])]
  {
    hide LoadTable;
  }

  lemma LoadFields(c: Codec, t: Table, f: Fields, g: Fields)
    requires FieldsOk(c, f) && |f.counts| == 10 && Loads(StateIn(f, t))
    requires g == SetTable(f, t, LoadTable(c, t, StateIn(f, t)))
    ensures FieldsOk(c, g) && |g.counts| == 10 && StoreAt(g) == Load(c, StoreAt(f), t)
    ensures HasBit(g.mask, t) && forall u: Table :: HasBit(f.mask, u) ==> HasBit(g.mask, u)
  {
    hide *;
    FieldsKeyed(c, f, t);
    StoreAtIs(f, t);
    LoadedMap(c, t, StateIn(f, t));
    SetTableOk(c, f, t, LoadTable(c, t, StateIn(f, t)));
    SetTableBits(f, t, LoadTable(c, t, StateIn(f, t)));
    OneTable(f, t, LoadTable(c, t, StateIn(f, t)));
    LoadIs(c, StoreAt(f), t);
  }

  /** Whether a table loads: its bit is set, or its log is text. */
  lemma LoadsIs(f: Fields, t: Table)
    requires |f.counts| == 10
    ensures Loads(StoreAt(f)[t]) <==> HasBit(f.mask, t) || IsUtf8(f.logs[t])
    ensures StoreAt(f)[t] == StateIn(f, t)
  {
    StoreAtIs(f, t);
    hide StoreAt, HasBit, IsUtf8, Index;
  }

  /** A table that is loaded, or that cannot be, is left as it is. */
  lemma NothingLoaded(c: Codec, t: Table, f: Fields)
    requires |f.counts| == 10 && (HasBit(f.mask, t) || !IsUtf8(f.logs[t]))
    ensures Load(c, StoreAt(f), t) == StoreAt(f)
  {
    StoreAtIs(f, t);
    hide StoreAt, HasBit, ValidRecords, Index, IsUtf8;
    SameState(StoreAt(f), t);
  }

  lemma LoadedStays(c: Codec, t: Table, next: TableState, f: Fields, g: Fields)
    requires FieldsOk(c, f) && |f.counts| == 10 && HasBit(f.mask, t)
    requires Keyed(t, next.mem) && next.loaded && g == SetTable(f, t, next)
    ensures FieldsOk(c, g) && |g.counts| == 10 && StoreAt(g) == StoreAt(f)[t := next]
    ensures HasBit(g.mask, t) && forall u: Table :: HasBit(f.mask, u) ==> HasBit(g.mask, u)
  {
    hide *;
    SetTableOk(c, f, t, next);
    SetTableBits(f, t, next);
    OneTable(f, t, next);
  }

  lemma AppendFields(c: Codec, r: Record, t: Table, f: Fields, g: Fields)
    requires FieldsOk(c, f) && |f.counts| == 10 && HasBit(f.mask, t) && t == TableOf(r)
    requires g == SetTable(f, t, AppendRecord(c, StateIn(f, t), r))
    ensures FieldsOk(c, g) && |g.counts| == 10
    ensures StoreAt(g) == StoreAt(f)[t := AppendRecord(c, StoreAt(f)[t], r)]
    ensures HasBit(g.mask, t)
  {
    hide *;
    FieldsKeyed(c, f, t);
    StoreAtIs(f, t);
    AppendedMap(c, StoreAt(f)[t], r);
    LoadedStays(c, t, AppendRecord(c, StoreAt(f)[t], r), f, g);
  }

  lemma AppendedMap(c: Codec, s: TableState, r: Record)
    requires Keyed(TableOf(r), s.mem)
    ensures Keyed(TableOf(r), AppendRecord(c, s, r).mem) && AppendRecord(c, s, r).loaded == s.loaded
  {
  }

  lemma RewriteFields(c: Codec, t: Table, f: Fields, g: Fields)
    requires FieldsOk(c, f) && |f.counts| == 10 && HasBit(f.mask, t)
    requires g == SetTable(f, t, RewriteTable(c, StateIn(f, t)))
    ensures FieldsOk(c, g) && |g.counts| == 10
    ensures StoreAt(g) == StoreAt(f)[t := RewriteTable(c, StoreAt(f)[t])]
    ensures HasBit(g.mask, t) && forall u: Table :: HasBit(f.mask, u) ==> HasBit(g.mask, u)
  {
    hide *;
    FieldsKeyed(c, f, t);
    StoreAtIs(f, t);
    RewrittenMap(c, StoreAt(f)[t]);
    LoadedStays(c, t, RewriteTable(c, StoreAt(f)[t]), f, g);
  }

  lemma RewrittenMap(c: Codec, s: TableState)
    ensures RewriteTable(c, s).mem == s.mem && RewriteTable(c, s).loaded == s.loaded
  {
    hide EncodeAll, Values;
  }

  /** The maps after retention, and nothing else changed. */
  lemma RetainFields(c: Codec, policy: RetentionPolicy, f: Fields, g: Fields)
    requires FieldsOk(c, f) && |f.counts| == 10 && g == f.(tables := MemRetain(f.tables, policy))
    ensures FieldsOk(c, g) && |g.counts| == 10 && MemOf(StoreAt(f)) == f.tables
    ensures StoreAt(g) == EvictIn(StoreAt(f), policy)
  {
    hide RetainedTable, MemKeyed, Faithful, StoreAt, HasBit, Index;
    RetentionKeepsKeys(f.tables, policy);
    forall t: Table
      ensures StoreAt(g)[t] == StoreAt(f)[t].(mem := RetainedTable(f.tables, policy, t))
      ensures MemOf(StoreAt(f))[t] == f.tables[t]
    {
      StoreAtIs(f, t);
      StoreAtIs(g, t);
    }
    hide MemOf, EvictIn, MemRetain;
    SameTables(MemOf(StoreAt(f)), f.tables);
    forall t: Table
      ensures StoreAt(g)[t] == EvictIn(StoreAt(f), policy)[t]
    {
      EvictInAt(StoreAt(f), policy, t);
    }
    SameStore(StoreAt(g), EvictIn(StoreAt(f), policy));
  }
}
