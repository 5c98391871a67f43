// The file store as a state machine over its ten tables, and the plain in-memory
// store it must answer like.
module StoreModel {
  import opened Prelude
  import opened Records
  import opened LogText
  import opened Utf8
  import opened Selection
  import opened Retention

  // ----- the reference: ten maps, never reloaded -----

  type Mem = m: map<Table, TableMap> | forall t: Table :: t in m witness map t: Table | true :: map[]

  function NoRecords(t: Table): TableMap {
    map[]
  }

  function EmptyMem(): Mem {
    map t: Table | true :: NoRecords(t)
  }

  /** Records under their own keys, all of them accepted. */
  predicate TableOk(c: Codec, t: Table, m: TableMap) {
    Keyed(t, m) && forall k :: k in m ==> c.accepts(m[k])
  }

  function MemWrite(c: Codec, mem: Mem, r: Record): Mem {
    if c.accepts(r) then mem[TableOf(r) := Put(mem[TableOf(r)], r)] else mem
  }

  /** A table after retention: receipts, the partitions of receipts that stay, and
      snapshots; everything else, the audit log included, is untouched. */
  function RetainedTable(mem: Mem, policy: RetentionPolicy, t: Table): TableMap {
    match t
    case QueryReceipts =>
      (match policy.maxReceiptsPerProfile
       case None => mem[t]
       case Some(max) => Kept(mem[t], max))
    case PartitionMetadata =>
      (match policy.maxReceiptsPerProfile
       case None => mem[t]
       case Some(max) => WithoutReceipts(mem[t], Evicted(mem[QueryReceipts], max)))
    case CatalogSnapshots =>
      (match policy.maxSnapshotsPerScope
       case None => mem[t]
       case Some(max) => Kept(mem[t], max))
    case _ => mem[t]
  }

  function MemRetain(mem: Mem, policy: RetentionPolicy): Mem {
    map t: Table | true :: RetainedTable(mem, policy, t)
  }

  /** How many receipts and snapshots retention removes. */
  function RetainCount(mem: Mem, policy: RetentionPolicy): nat {
    (match policy.maxReceiptsPerProfile
     case None => 0
     case Some(max) => |Evicted(mem[QueryReceipts], max)|)
    + (match policy.maxSnapshotsPerScope
       case None => 0
       case Some(max) => |Evicted(mem[CatalogSnapshots], max)|)
  }

  // ----- one table of the file store -----

  /** A table's log (an absent file is an empty one), its map in memory, whether the
      log has been read, and the count of valid lines. */
  datatype TableState = TableState(text: seq<byte>, mem: TableMap, loaded: bool, lines: nat)

  /** A loaded table's map is the fold of its log and its count the number of valid
      lines; an unloaded table's map is empty; the log is text without a torn tail. */
  predicate TableInv(c: Codec, t: Table, s: TableState) {
    && Whole(s.text) && IsUtf8(s.text)
    && (s.loaded ==> s.mem == Contents(c, t, s.text) && s.lines == |ValidRecords(c, t, s.text)|)
    && (!s.loaded ==> s.mem == map[])
  }

  /** Reading a log that is not text fails, and changes nothing. */
  predicate Loads(s: TableState) {
    s.loaded || IsUtf8(s.text)
  }

  function LoadTable(c: Codec, t: Table, s: TableState): TableState {
    if s.loaded || !Loads(s) then s
    else
      var records := ValidRecords(c, t, s.text);
      s.(mem := PutAll(s.mem, records), loaded := true, lines := |records|)
  }

  function AppendRecord(c: Codec, s: TableState, r: Record): TableState {
    s.(text := s.text + EncodedLine(c, r), mem := Put(s.mem, r), lines := s.lines + 1)
  }

  /** Temp file, then rename: the log becomes the canonical records. */
  function RewriteTable(c: Codec, s: TableState): TableState {
    s.(text := EncodeAll(c, Values(s.mem)), lines := |s.mem|)
  }

  const MIN_SUPERSEDED := 64

  /** The lazy policy: at least 64 lines, 64 of them superseded, twice the canonical
      records or more. */
  predicate CompactsNow(lines: nat, canonical: nat) {
    && lines >= MIN_SUPERSEDED
    && (if lines >= canonical then lines - canonical else 0) >= MIN_SUPERSEDED
    && lines >= 2 * canonical
  }

  function LazyCompact(c: Codec, s: TableState): TableState {
    if CompactsNow(s.lines, |s.mem|) then RewriteTable(c, s) else s
  }

  /** Compaction on demand: only a log with superseded lines is rewritten. */
  function CompactTable(c: Codec, s: TableState): TableState {
    if s.lines <= |s.mem| then s else RewriteTable(c, s)
  }

  /** Load, apply in memory, append a line; upsert tables then compact lazily. */
  function WriteTable(c: Codec, t: Table, s: TableState, r: Record): TableState {
    var loaded := LoadTable(c, t, s);
    if !loaded.loaded || !c.accepts(r) then loaded
    else if Compactable(t) then LazyCompact(c, AppendRecord(c, loaded, r))
    else AppendRecord(c, loaded, r)
  }

  // ----- the whole store -----

  type Store = m: map<Table, TableState> | forall t: Table :: t in m
    witness map t: Table | true :: TableState([], map[], false, 0)

  type Files = m: map<Table, seq<byte>> | forall t: Table :: t in m witness map t: Table | true :: []

  function Open(files: Files): Store {
    map t: Table | true :: TableState(files[t], map[], false, 0)
  }

  function FilesOf(s: Store): Files {
    map t: Table | true :: s[t].text
  }

  function MemOf(s: Store): Mem {
    map t: Table | true :: s[t].mem
  }

  /** What reopening the directory gives. */
  function Durable(c: Codec, s: Store): Mem {
    map t: Table | true :: Contents(c, t, s[t].text)
  }

  ghost predicate Inv(c: Codec, s: Store) {
    forall t: Table :: TableInv(c, t, s[t])
  }

  function Load(c: Codec, s: Store, t: Table): Store {
    s[t := LoadTable(c, t, s[t])]
  }

  function Write(c: Codec, s: Store, r: Record): Store {
    s[TableOf(r) := WriteTable(c, TableOf(r), s[TableOf(r)], r)]
  }

  /** The tables loaded one after the other, up to the first that fails; and whether
      all of them loaded. */
  function LoadInOrder(c: Codec, s: Store, ts: seq<Table>): (Store, bool)
    decreases |ts|
  {
    if ts == [] then (s, true)
    else if !Loads(s[ts[0]]) then (s, false)
    else LoadInOrder(c, Load(c, s, ts[0]), ts[1..])
  }

  function CompactOne(c: Codec, s: Store, t: Table): Store {
    s[t := CompactTable(c, s[t])]
  }

  function RewriteOne(c: Codec, s: Store, t: Table): Store {
    s[t := RewriteTable(c, s[t])]
  }

  function UpsertTables(): seq<Table> {
    [Profiles, DatasetManifests, QueryPlans]
  }

  /** Load the upsert tables; if that succeeds, compact each. */
  function Compact(c: Codec, s: Store): (Store, bool) {
    var (loaded, ok) := LoadInOrder(c, s, UpsertTables());
    if !ok then (loaded, false)
    else (CompactOne(c, CompactOne(c, CompactOne(c, loaded, Profiles), DatasetManifests), QueryPlans), true)
  }

  /** The tables retention reads, and rewrites when it evicts something. */
  function RetentionTables(policy: RetentionPolicy): seq<Table> {
    (if policy.maxReceiptsPerProfile.Some? then [QueryReceipts, PartitionMetadata] else [])
    + (if policy.maxSnapshotsPerScope.Some? then [CatalogSnapshots] else [])
  }

  /** The retained maps in the place of the old ones. */
  function EvictIn(s: Store, policy: RetentionPolicy): Store {
    var mem := MemOf(s);
    map t: Table | true :: s[t].(mem := RetainedTable(mem, policy, t))
  }

  /** The rewrites of retention, one table after the other. */
  function RewriteAll(c: Codec, s: Store, ts: seq<Table>): Store
    decreases |ts|
  {
    if ts == [] then s else RewriteAll(c, RewriteOne(c, s, ts[0]), ts[1..])
  }

  /** Evict in memory; the logs are rewritten only if something was evicted. */
  function RetainLoaded(c: Codec, s: Store, policy: RetentionPolicy): Store {
    if RetainCount(MemOf(s), policy) > 0 then RewriteAll(c, EvictIn(s, policy), RetentionTables(policy))
    else EvictIn(s, policy)
  }

  function Retain(c: Codec, s: Store, policy: RetentionPolicy): (Store, Answer) {
    var (loaded, ok) := LoadInOrder(c, s, RetentionTables(policy));
    if !ok then (loaded, LoadFailed)
    else (RetainLoaded(c, loaded, policy), EvictedCount(RetainCount(MemOf(loaded), policy)))
  }

  // ----- operations and answers -----

  datatype Op = WriteRecord(record: Record) | Ask(query: Query) | CompactAll | ApplyRetention(policy: RetentionPolicy) | Reopen

  datatype Answer = Done | Refused | LoadFailed | Rows(rows: seq<Record>) | EvictedCount(count: nat)

  function StoreStep(c: Codec, s: Store, op: Op): (Store, Answer) {
    match op
    case WriteRecord(r) =>
      (Write(c, s, r), if !Loads(s[TableOf(r)]) then LoadFailed else if c.accepts(r) then Done else Refused)
    case Ask(q) =>
      var loaded := Load(c, s, QueryTable(q));
      (loaded, if !Loads(s[QueryTable(q)]) then LoadFailed else Rows(MemAnswer(q, loaded[QueryTable(q)].mem)))
    case CompactAll =>
      var (compacted, ok) := Compact(c, s);
      (compacted, if ok then Done else LoadFailed)
    case ApplyRetention(policy) => Retain(c, s, policy)
    case Reopen => (Open(FilesOf(s)), Done)
  }

  function MemStep(c: Codec, mem: Mem, op: Op): (Mem, Answer) {
    match op
    case WriteRecord(r) => (MemWrite(c, mem, r), if c.accepts(r) then Done else Refused)
    case Ask(q) => (mem, Rows(MemAnswer(q, mem[QueryTable(q)])))
    case CompactAll => (mem, Done)
    case ApplyRetention(policy) => (MemRetain(mem, policy), EvictedCount(RetainCount(mem, policy)))
    case Reopen => (mem, Done)
  }

  function StoreRun(c: Codec, s: Store, ops: seq<Op>): (Store, seq<Answer>)
    decreases |ops|
  {
    if ops == [] then (s, [])
    else
      var (next, answer) := StoreStep(c, s, ops[0]);
      var (last, answers) := StoreRun(c, next, ops[1..]);
      (last, [answer] + answers)
  }

  function MemRun(c: Codec, mem: Mem, ops: seq<Op>): (Mem, seq<Answer>)
    decreases |ops|
  {
    if ops == [] then (mem, [])
    else
      var (next, answer) := MemStep(c, mem, ops[0]);
      var (last, answers) := MemRun(c, next, ops[1..]);
      (last, [answer] + answers)
  }
}
