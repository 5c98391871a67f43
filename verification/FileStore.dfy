// The file cache: each operation, on the objects, takes the step that the store model
// gives.
module FileStore {
  import opened Prelude
  import opened Records
  import opened LogText
  import opened Utf8
  import opened Selection
  import opened Retention
  import opened StoreModel
  import opened StoreTheorems
  import opened MemoryCache
  import opened StoreFields
  import opened Replay

  class FileCache {
    const c: Codec
    const dir: DataDirectory
    const inner: InMemoryCache
    const lineCounts: array<nat>
    var loadedTables: bv16
    var skippedLines: nat

    ghost function State(): Fields
      reads this, dir, inner, lineCounts
    {
      Fields(dir.logs, inner.tables, loadedTables, lineCounts[..])
    }

    ghost predicate Valid()
      reads this, dir, inner, lineCounts
    {
      lineCounts.Length == 10 && inner.c == c && FieldsOk(c, State())
    }

    /** The cache as the store model sees it. */
    ghost function View(): Store
      requires lineCounts.Length == 10
      reads this, dir, inner, lineCounts
    {
      StoreAt(State())
    }

    /** `open`: nothing is read. */
    constructor (c: Codec, dir: DataDirectory)
      requires Faithful(c)
      ensures this.c == c && this.dir == dir && fresh(inner) && fresh(lineCounts)
      ensures Valid() && View() == Open(dir.logs) && skippedLines == 0
    {
      this.c, this.dir := c, dir;
      inner := new InMemoryCache(c);
      lineCounts := new nat[10](_ => 0);
      loadedTables, skippedLines := 0, 0;
      new;
      assert State() == Fields(dir.logs, EmptyMem(), 0, lineCounts[..]);
      hide *;
      EmptyMemKeyed();
      OpenView(dir.logs, lineCounts[..]);
      OpenFields(c, State());
      MakeValid();
      ViewIs();
    }

    /** One line of a log: blank, taken by the target, or skipped. */
    method OfferLine(t: Table, line: seq<byte>, target: InMemoryCache) returns (taken: nat)
      requires Faithful(c) && target.c == c
      modifies target, this`skippedLines
      ensures target.tables == old(target.tables)[t := Offered(c, t, line, old(target.tables)[t])]
      ensures taken == if Classify(c, t, line).Valid? then 1 else 0
      ensures skippedLines == old(skippedLines) + if Classify(c, t, line).Skipped? then 1 else 0
    {
      hide Put, TableOf;
      SameValue(target.tables, t);
      taken := 0;
      if !c.isBlank(line) {
        match c.decode(t, line) {
          case None => skippedLines := skippedLines + 1;
          case Some(r) =>
            var ok := target.Apply(r);
            if ok {
              taken := 1;
            } else {
              skippedLines := skippedLines + 1;
            }
        }
      }
    }

    /** `load_table`: nothing of a log that is not text; of one that is, every complete
        line that parses is offered to the target, blank lines are passed over, and the
        rest are counted as skipped. */
    method LoadLines(t: Table, target: InMemoryCache) returns (valid: Option<nat>)
      requires Faithful(c) && target.c == c
      modifies target, this`skippedLines
      ensures valid.Some? == IsUtf8(dir.logs[t])
      ensures valid.Some? ==> valid.value == |ValidRecords(c, t, dir.logs[t])|
      ensures valid.Some? ==> target.tables == ReplayOne(c, dir.logs, old(target.tables), t)
      ensures valid.Some? ==> skippedLines == old(skippedLines) + SkippedIn(c, t, dir.logs[t])
      ensures valid.None? ==> target.tables == old(target.tables) && skippedLines == old(skippedLines)
    {
      hide *;
      if !IsUtf8(dir.logs[t]) {
        return None;
      }
      var lines := Lines(Complete(dir.logs[t]));
      ghost var start := target.tables;
      ghost var records := ParseLines(c, t, lines);
      LinesRead(c, dir.logs, start, t);
      var count := 0;
      var i := 0;
      assert lines[0..] == lines;
      SameValue(target.tables, t);
      while i < |lines|
        invariant i <= |lines|
        invariant target.tables == start[t := target.tables[t]]
        invariant PutAll(target.tables[t], ParseLines(c, t, lines[i..])) == PutAll(start[t], records)
        invariant count + |ParseLines(c, t, lines[i..])| == |records|
        invariant skippedLines + CountSkipped(c, t, lines[i..]) == old(skippedLines) + CountSkipped(c, t, lines)
      {
        LineStep(c, t, lines, i, target.tables[t]);
        SetAgain(start, t, target.tables[t], Offered(c, t, lines[i], target.tables[t]));
        var taken := OfferLine(t, lines[i], target);
        count := count + taken;
        i := i + 1;
      }
      NoLinesLeft(c, t, target.tables[t]);
      assert lines[i..] == [];
      valid := Some(count);
    }

    /** Read an unread table: its map, its count and its bit. */
    method ReadTable(t: Table, ghost f: Fields) returns (ok: bool)
      requires lineCounts.Length == 10 && Faithful(c) && inner.c == c
      requires State() == f && |f.counts| == 10 && !HasBit(f.mask, t)
      modifies this, inner, lineCounts
      ensures ok == IsUtf8(dir.logs[t])
      ensures ok ==> State() == SetTable(f, t, LoadTable(c, t, StateIn(f, t)))
      ensures ok ==> skippedLines == old(skippedLines) + SkippedIn(c, t, dir.logs[t])
      ensures !ok ==> State() == f && skippedLines == old(skippedLines)
    {
      hide *;
      StateIs();
      var lines := LoadLines(t, inner);
      StateIs();
      if lines.None? {
        return false;
      }
      MarkRead(t, lines.value, f);
      ok := true;
    }

    /** A table's lines counted and its bit set. */
    method MarkRead(t: Table, lines: nat, ghost f: Fields)
      requires lineCounts.Length == 10 && |f.counts| == 10 && !HasBit(f.mask, t) && IsUtf8(f.logs[t])
      requires State() == f.(tables := ReplayOne(c, f.logs, f.tables, t)) && lines == |ValidRecords(c, t, f.logs[t])|
      modifies this`loadedTables, lineCounts
      ensures State() == SetTable(f, t, LoadTable(c, t, StateIn(f, t)))
    {
      hide *;
      StateIs();
      ReplayOneIs(c, f.logs, f.tables, t);
      lineCounts[Index(t)] := lines;
      loadedTables := loadedTables | Bit(t);
      ReadIsSet(c, t, f, inner.tables, lineCounts[..]);
      StateIs();
    }

    lemma StateIs()
      ensures State() == Fields(dir.logs, inner.tables, loadedTables, lineCounts[..])
    {
    }

    lemma ViewIs()
      requires lineCounts.Length == 10 && |State().counts| == 10
      ensures View() == StoreAt(State())
    {
      hide StoreAt;
    }

    lemma UseValid()
      requires Valid()
      ensures lineCounts.Length == 10 && inner.c == c && FieldsOk(c, State()) && |State().counts| == 10
      ensures State().mask == loadedTables && State().logs == dir.logs && State().tables == inner.tables
      ensures Faithful(c) && View() == StoreAt(State())
    {
      hide Faithful, MemKeyed, StoreAt;
    }

    lemma MakeValid()
      requires lineCounts.Length == 10 && inner.c == c && FieldsOk(c, State())
      ensures Valid()
    {
      hide FieldsOk;
    }

    /** `ensure_table_loaded`. */
    method EnsureTableLoaded(t: Table) returns (ok: bool)
      requires Valid()
      modifies this, inner, lineCounts
      ensures Valid() && View() == Load(c, old(View()), t) && ok == Loads(old(View())[t])
      ensures if ok then HasBit(loadedTables, t) else View() == old(View())
      ensures forall u: Table :: HasBit(old(loadedTables), u) ==> HasBit(loadedTables, u)
      ensures skippedLines
           == old(skippedLines) + if ok && !old(View())[t].loaded then SkippedIn(c, t, dir.logs[t]) else 0
    {
      hide *;
      UseValid();
      ghost var f := State();
      LoadsIs(f, t);
      StoreAtIs(f, t);
      if HasBit(loadedTables, t) {
        NothingLoaded(c, t, f);
        return true;
      }
      ok := ReadTable(t, f);
      if ok {
        LoadFields(c, t, f, State());
      } else {
        NothingLoaded(c, t, f);
      }
      UseState();
      MakeValid();
      UseValid();
    }

    lemma UseState()
      ensures State().mask == loadedTables && State().logs == dir.logs
    {
    }

    /** `append_line`: one encoded line at the end of the log. */
    method AppendLine(t: Table, r: Record)
      requires lineCounts.Length == 10
      modifies dir, lineCounts
      ensures dir.logs == old(dir.logs)[t := old(dir.logs)[t] + EncodedLine(c, r)] && dir.temps == old(dir.temps)
      ensures lineCounts[..] == old(lineCounts[..])[Index(t) := old(lineCounts[..])[Index(t)] + 1]
    {
      hide *;
      dir.Append(t, EncodedLine(c, r));
      lineCounts[Index(t)] := lineCounts[Index(t)] + 1;
    }

    /** `rewrite_table_atomic`: the lines into a temp file, and the temp file over the
        log. The audit log is never rewritten. */
    method RewriteTableAtomic(t: Table, records: seq<Record>)
      requires t != AuditLog
      modifies dir
      ensures dir.logs == old(dir.logs)[t := EncodeAll(c, records)]
      ensures dir.temps == old(dir.temps) - {t}
    {
      var buf := EncodeRecords(records);
      ghost var temps := dir.temps;
      dir.WriteTemp(t, buf);
      dir.RenameTemp(t);
      assert dir.temps == temps[t := buf] - {t} == temps - {t};
    }

    /** The buffer, one line a record. */
    method EncodeRecords(records: seq<Record>) returns (buf: seq<byte>)
      ensures buf == EncodeAll(c, records)
    {
      buf := [];
      var i := 0;
      EncodeStart(c, records);
      hide *;
      while i < |records|
        invariant i <= |records|
        invariant buf + EncodeAll(c, records[i..]) == EncodeAll(c, records)
      {
        EncodeStep(c, records, i, buf);
        buf := buf + EncodedLine(c, records[i]);
        i := i + 1;
      }
      EncodeEnd(c, records, buf);
    }

    /** An accepted record enters the map and the log. */
    method PutAndAppend(r: Record, t: Table, ghost f: Fields) returns (ok: bool)
      requires lineCounts.Length == 10 && inner.c == c && t == TableOf(r) && c.accepts(r)
      requires State() == f && |f.counts| == 10 && HasBit(f.mask, t)
      modifies dir, inner, lineCounts
      ensures ok && State() == SetTable(f, t, AppendRecord(c, StateIn(f, t), r))
    {
      hide *;
      StateIs();
      AcceptedWrite(c, inner.tables, r);
      ok := inner.Apply(r);
      AppendLine(t, r);
      AppendIsSet(c, r, t, f, dir.logs, inner.tables, lineCounts[..]);
      StateIs();
    }

    /** A log rewritten to the records of its map, in key order, and counted. */
    method RewriteCounted(t: Table)
      requires Valid() && HasBit(loadedTables, t) && t != AuditLog
      modifies dir, lineCounts
      ensures Valid() && View() == RewriteOne(c, old(View()), t)
    {
      hide *;
      UseValid();
      ghost var f := State();
      StateIs();
      var canonical := Values(inner.tables[t]);
      RewriteTableAtomic(t, canonical);
      lineCounts[Index(t)] := |canonical|;
      RewriteIsSet(c, t, f, dir.logs, lineCounts[..]);
      StateIs();
      RewriteFields(c, t, f, State());
      RewriteOneIs(c, StoreAt(f), t);
      MakeValid();
      UseValid();
    }

    /** `maybe_lazy_compact_upsert`. */
    method MaybeLazyCompactUpsert(t: Table)
      requires Valid() && HasBit(loadedTables, t) && t != AuditLog
      modifies dir, lineCounts
      ensures Valid() && View() == old(View())[t := LazyCompact(c, old(View())[t])]
    {
      hide *;
      UseValid();
      StateIs();
      StoreAtIs(State(), t);
      LazyCompactIs(c, View()[t]);
      RewriteOneIs(c, View(), t);
      SameState(View(), t);
      var lines := lineCounts[Index(t)];
      if lines < MIN_SUPERSEDED {
        return;
      }
      var canonical := |inner.tables[t]|;
      if (if lines >= canonical then lines - canonical else 0) >= MIN_SUPERSEDED && lines >= 2 * canonical {
        RewriteCounted(t);
      }
    }

    /** `compact_single_table`, with what it adds to the report. */
    method CompactSingleTable(t: Table) returns (report: CompactionReport)
      requires Valid() && HasBit(loadedTables, t) && t != AuditLog
      modifies dir, lineCounts
      ensures Valid() && View() == CompactOne(c, old(View()), t)
      ensures report == ReportFor(old(View())[t])
    {
      hide *;
      UseValid();
      StateIs();
      StoreAtIs(State(), t);
      CompactTableIs(c, View()[t]);
      CompactOneIs(c, View(), t);
      RewriteOneIs(c, View(), t);
      SameState(View(), t);
      var before, after := lineCounts[Index(t)], |inner.tables[t]|;
      report := CompactionReport(before, after, 0);
      if before <= after {
        return;
      }
      RewriteCounted(t);
      report := report.(tablesRewritten := 1);
    }

    // ----- the backend operations -----

    /** Every upsert and append: load, validate, put, append, and for the upsert tables
        compact when due. */
    method Write(r: Record) returns (answer: Answer)
      requires Valid()
      modifies this, dir, inner, lineCounts
      ensures Valid() && (View(), answer) == StoreStep(c, old(View()), WriteRecord(r))
    {
      var t := TableOf(r);
      var upsert := Compactable(t);
      assert upsert ==> t != AuditLog;
      hide *;
      ghost var v0 := View();
      WriteAnswer(c, v0, r);
      WriteSteps(c, v0, r, t);
      var ok := EnsureTableLoaded(t);
      if !ok {
        return LoadFailed;
      }
      ok := c.accepts(r);
      if !ok {
        return Refused;
      }
      AppendAccepted(r, t);
      if upsert {
        MaybeLazyCompactUpsert(t);
      }
      answer := Done;
    }

    /** The store sees an appended record. */
    method AppendAccepted(r: Record, t: Table)
      requires Valid() && HasBit(loadedTables, t) && t == TableOf(r) && c.accepts(r)
      modifies dir, inner, lineCounts
      ensures Valid() && View() == old(View())[t := AppendRecord(c, old(View())[t], r)]
    {
      hide *;
      UseValid();
      ghost var f := State();
      var ok := PutAndAppend(r, t, f);
      AppendFields(c, r, t, f, State());
      MakeValid();
      UseValid();
    }

    /** Every lookup: load the table it reads, then ask the in-memory cache. */
    method Lookup(q: Query) returns (answer: Answer)
      requires Valid()
      modifies this, inner, lineCounts
      ensures Valid() && (View(), answer) == StoreStep(c, old(View()), Ask(q))
    {
      hide *;
      var t := QueryTable(q);
      UseValid();
      AskIs(c, View(), q);
      var ok := EnsureTableLoaded(t);
      if !ok {
        return LoadFailed;
      }
      UseValid();
      StateIs();
      StoreAtIs(State(), t);
      var rows := inner.Lookup(q);
      answer := Rows(rows);
    }

    /** The three upsert tables loaded. */
    method LoadUpsertTables() returns (ok: bool)
      requires Valid()
      modifies this, inner, lineCounts
      ensures Valid() && (View(), ok) == LoadInOrder(c, old(View()), UpsertTables())
      ensures ok ==> HasBit(loadedTables, Profiles) && HasBit(loadedTables, DatasetManifests) && HasBit(loadedTables, QueryPlans)
    {
      hide *;
      UseValid();
      UpsertLoads(c, View());
      ok := EnsureTableLoaded(Profiles);
      if !ok {
        return;
      }
      ok := EnsureTableLoaded(DatasetManifests);
      if !ok {
        return;
      }
      ok := EnsureTableLoaded(QueryPlans);
    }

    /** `compact_upsert_tables`: what each log held and holds, unless one does not load. */
    method CompactUpsertTables() returns (report: Option<CompactionReport>)
      requires Valid()
      modifies this, dir, inner, lineCounts
      ensures Valid() && (View(), report.Some?) == Compact(c, old(View()))
      ensures report.Some? ==>
                report.value == CompactionReportFor(LoadInOrder(c, old(View()), UpsertTables()).0)
    {
      hide *;
      UseValid();
      CompactIs(c, View());
      var ok := LoadUpsertTables();
      if !ok {
        return None;
      }
      ghost var loaded := View();
      CompactOneAt(c, loaded, Profiles, DatasetManifests);
      CompactOneAt(c, loaded, Profiles, QueryPlans);
      CompactOneAt(c, CompactOne(c, loaded, Profiles), DatasetManifests, QueryPlans);
      ReportIs(loaded);
      var profiles := CompactSingleTable(Profiles);
      var manifests := CompactSingleTable(DatasetManifests);
      var plans := CompactSingleTable(QueryPlans);
      report := Some(AddReports(AddReports(profiles, manifests), plans));
    }

    /** The tables that the policy reads. */
    method LoadForRetention(policy: RetentionPolicy) returns (ok: bool)
      requires Valid()
      modifies this, inner, lineCounts
      ensures Valid() && (View(), ok) == LoadInOrder(c, old(View()), RetentionTables(policy))
      ensures ok && policy.maxReceiptsPerProfile.Some? ==>
                HasBit(loadedTables, QueryReceipts) && HasBit(loadedTables, PartitionMetadata)
      ensures ok && policy.maxSnapshotsPerScope.Some? ==> HasBit(loadedTables, CatalogSnapshots)
    {
      hide *;
      UseValid();
      RetentionLoads(c, View(), policy);
      ok := true;
      if policy.maxReceiptsPerProfile.Some? {
        ok := EnsureTableLoaded(QueryReceipts);
        if !ok {
          return;
        }
        ok := EnsureTableLoaded(PartitionMetadata);
        if !ok {
          return;
        }
      }
      if policy.maxSnapshotsPerScope.Some? {
        ok := EnsureTableLoaded(CatalogSnapshots);
      }
    }

    /** Eviction in memory, seen from the store. */
    method EvictInMemory(policy: RetentionPolicy) returns (evicted: nat)
      requires Valid()
      modifies inner
      ensures Valid() && evicted == RetainCount(MemOf(old(View())), policy)
      ensures View() == EvictIn(old(View()), policy)
    {
      hide *;
      UseValid();
      KeyedInner();
      ghost var f := State();
      StateIs();
      evicted := inner.ApplyRetention(policy);
      StateIs();
      RetainFields(c, policy, f, State());
      MakeValid();
      UseValid();
    }

    lemma KeyedInner()
      requires Valid()
      ensures inner.Valid()
    {
      hide MemKeyed, Faithful;
    }

    /** The logs of the policy's tables, rewritten. */
    method RewriteEvicted(policy: RetentionPolicy)
      requires Valid()
      requires policy.maxReceiptsPerProfile.Some? ==>
        HasBit(loadedTables, QueryReceipts) && HasBit(loadedTables, PartitionMetadata)
      requires policy.maxSnapshotsPerScope.Some? ==> HasBit(loadedTables, CatalogSnapshots)
      modifies dir, lineCounts
      ensures Valid() && View() == RewriteAll(c, old(View()), RetentionTables(policy))
    {
      hide *;
      UseValid();
      RewritesAre(c, View(), policy);
      if policy.maxReceiptsPerProfile.Some? {
        RewriteCounted(QueryReceipts);
        RewriteCounted(PartitionMetadata);
      }
      if policy.maxSnapshotsPerScope.Some? {
        RewriteCounted(CatalogSnapshots);
      }
    }

    /** `apply_retention`: logs are rewritten only if something was evicted. */
    method ApplyRetention(policy: RetentionPolicy) returns (answer: Answer)
      requires Valid()
      modifies this, dir, inner, lineCounts
      ensures Valid() && (View(), answer) == Retain(c, old(View()), policy)
    {
      hide *;
      UseValid();
      RetainIs(c, View(), policy);
      var ok := LoadForRetention(policy);
      if !ok {
        return LoadFailed;
      }
      var evicted := EvictInMemory(policy);
      if evicted > 0 {
        RewriteEvicted(policy);
      }
      answer := EvictedCount(evicted);
    }

    /** The health check's count: every unread table is read, up to the first that does
        not load, and what reading skipped is counted. */
    method SkippedLines() returns (n: nat)
      requires Valid()
      modifies this, inner, lineCounts
      ensures Valid() && View() == LoadInOrder(c, old(View()), AllTables()).0 && n == skippedLines
      ensures n == old(skippedLines) + SkippedInOrder(c, old(View()), AllTables())
    {
      var ts := AllTables();
      hide *;
      UseValid();
      ghost var v0 := View();
      assert ts[0..] == ts;
      var i := 0;
      while i < |ts|
        invariant i <= |ts| && Valid() && lineCounts.Length == 10
        invariant LoadInOrder(c, View(), ts[i..]) == LoadInOrder(c, v0, ts)
        invariant skippedLines + SkippedInOrder(c, View(), ts[i..]) == old(skippedLines) + SkippedInOrder(c, v0, ts)
      {
        UseValid();
        LoadNext(c, View(), ts, i);
        SeenText(ts[i]);
        var ok := EnsureTableLoaded(ts[i]);
        UseValid();
        if !ok {
          return skippedLines;
        }
        i := i + 1;
      }
      assert ts[i..] == [];
      LoadNone(c, View());
      n := skippedLines;
    }

    lemma SeenText(t: Table)
      requires Valid()
      ensures View()[t].text == dir.logs[t]
    {
      hide *;
      UseValid();
      StoreAtIs(State(), t);
    }

    /** `replay_logs`: every log, in order, up to the first that is not text. */
    method ReplayLogs(target: InMemoryCache) returns (ok: bool)
      requires Faithful(c) && target.c == c
      modifies target, this`skippedLines
      ensures target.tables == ReplayInOrder(c, dir.logs, old(target.tables), AllTables()).0
      ensures skippedLines == old(skippedLines) + ReplayInOrder(c, dir.logs, old(target.tables), AllTables()).1
      ensures ok == ReplayInOrder(c, dir.logs, old(target.tables), AllTables()).2
    {
      var ts := AllTables();
      hide *;
      ghost var start := target.tables;
      ghost var all := ReplayInOrder(c, dir.logs, start, ts);
      var i := 0;
      assert ts[0..] == ts;
      while i < |ts|
        invariant i <= |ts|
        invariant ReplayInOrder(c, dir.logs, target.tables, ts[i..]).0 == all.0
        invariant skippedLines + ReplayInOrder(c, dir.logs, target.tables, ts[i..]).1 == old(skippedLines) + all.1
        invariant ReplayInOrder(c, dir.logs, target.tables, ts[i..]).2 == all.2
      {
        ReplayNext(c, dir.logs, target.tables, ts, i);
        var valid := LoadLines(ts[i], target);
        if valid.None? {
          return false;
        }
        i := i + 1;
      }
      assert ts[i..] == [];
      ReplayNone(c, dir.logs, target.tables);
      ok := true;
    }

    /** `replay_into`: the logs into another store; this one, its counter included, stays
        as it is. The lines not replayed are counted, unless a log could not be read. */
    method ReplayInto(target: InMemoryCache) returns (notReplayed: Option<nat>)
      requires Valid() && target != inner && target.c == c
      modifies target, this`skippedLines
      ensures Valid() && View() == old(View()) && skippedLines == old(skippedLines)
      ensures target.tables == ReplayInOrder(c, dir.logs, old(target.tables), AllTables()).0
      ensures notReplayed.Some? == ReplayInOrder(c, dir.logs, old(target.tables), AllTables()).2
      ensures notReplayed.Some? ==>
                notReplayed.value == ReplayInOrder(c, dir.logs, old(target.tables), AllTables()).1
    {
      hide *;
      UseValid();
      StateIs();
      var before := skippedLines;
      var ok := ReplayLogs(target);
      notReplayed := if ok then Some(skippedLines - before) else None;
      skippedLines := before;
      StateIs();
      MakeValid();
      UseValid();
    }
  }

  lemma AcceptedWrite(c: Codec, mem: Mem, r: Record)
    ensures MemWrite(c, mem, r)
         == if c.accepts(r) then mem[TableOf(r) := Put(mem[TableOf(r)], r)] else mem
  {
    hide TableOf, Put;
  }

  lemma LinesRead(c: Codec, logs: Files, m: Mem, t: Table)
    ensures var lines := Lines(Complete(logs[t]));
      && ValidRecords(c, t, logs[t]) == ParseLines(c, t, lines)
      && SkippedIn(c, t, logs[t]) == CountSkipped(c, t, lines)
      && ReplayOne(c, logs, m, t) == m[t := PutAll(m[t], ParseLines(c, t, lines))]
  {
    hide Lines, Complete, ParseLines, CountSkipped, PutAll;
  }

  lemma ReplayOneIs(c: Codec, logs: Files, m: Mem, t: Table)
    ensures ReplayOne(c, logs, m, t) == m[t := PutAll(m[t], ValidRecords(c, t, logs[t]))]
  {
    hide PutAll, ValidRecords;
  }

  // ----- the steps of the operations -----

  lemma LoadStep(c: Codec, s: Store, t: Table, rest: seq<Table>)
    ensures LoadInOrder(c, s, [t] + rest)
         == if Loads(s[t]) then LoadInOrder(c, Load(c, s, t), rest) else (s, false)
  {
    assert ([t] + rest)[1..] == rest;
    hide Load, Loads;
  }

  lemma LoadedNone(c: Codec, s: Store)
    ensures LoadInOrder(c, s, []) == (s, true)
  {
  }

  lemma UpsertLoads(c: Codec, v0: Store)
    ensures var v1 := Load(c, v0, Profiles);
      var v2 := Load(c, v1, DatasetManifests);
      LoadInOrder(c, v0, UpsertTables())
      == if !Loads(v0[Profiles]) then (v0, false)
         else if !Loads(v1[DatasetManifests]) then (v1, false)
         else if !Loads(v2[QueryPlans]) then (v2, false)
         else (Load(c, v2, QueryPlans), true)
  {
    assert UpsertTables() == [Profiles] + [DatasetManifests, QueryPlans];
    assert [DatasetManifests, QueryPlans] == [DatasetManifests] + [QueryPlans];
    assert [QueryPlans] + [] == [QueryPlans];
    hide *;
    LoadStep(c, v0, Profiles, [DatasetManifests, QueryPlans]);
    var v1 := Load(c, v0, Profiles);
    LoadStep(c, v1, DatasetManifests, [QueryPlans]);
    var v2 := Load(c, v1, DatasetManifests);
    LoadStep(c, v2, QueryPlans, []);
    LoadedNone(c, Load(c, v2, QueryPlans));
  }

  /** Loading what the caps name: receipts and partitions, then snapshots. */
  lemma RetentionLoads(c: Codec, v0: Store, policy: RetentionPolicy)
    ensures var receipts, snapshots := policy.maxReceiptsPerProfile.Some?, policy.maxSnapshotsPerScope.Some?;
      var v1 := if receipts then Load(c, v0, QueryReceipts) else v0;
      var v2 := if receipts then Load(c, v1, PartitionMetadata) else v0;
      LoadInOrder(c, v0, RetentionTables(policy))
      == if receipts && !Loads(v0[QueryReceipts]) then (v0, false)
         else if receipts && !Loads(v1[PartitionMetadata]) then (v1, false)
         else if !snapshots then (v2, true)
         else if !Loads(v2[CatalogSnapshots]) then (v2, false)
         else (Load(c, v2, CatalogSnapshots), true)
  {
    var rest := if policy.maxSnapshotsPerScope.Some? then [CatalogSnapshots] else [];
    var v1 := Load(c, v0, QueryReceipts);
    var v2 := if policy.maxReceiptsPerProfile.Some? then Load(c, v1, PartitionMetadata) else v0;
    assert RetentionTables(policy)
        == if policy.maxReceiptsPerProfile.Some? then [QueryReceipts] + ([PartitionMetadata] + rest) else rest;
    assert [CatalogSnapshots] + [] == [CatalogSnapshots];
    hide *;
    LoadStep(c, v0, QueryReceipts, [PartitionMetadata] + rest);
    LoadStep(c, v1, PartitionMetadata, rest);
    LoadStep(c, v2, CatalogSnapshots, []);
    LoadedNone(c, v2);
    LoadedNone(c, Load(c, v2, CatalogSnapshots));
  }

  lemma RewriteStep(c: Codec, s: Store, t: Table, rest: seq<Table>)
    ensures RewriteAll(c, s, [t] + rest) == RewriteAll(c, RewriteOne(c, s, t), rest)
  {
    assert ([t] + rest)[1..] == rest;
    hide RewriteOne;
  }

  lemma RewriteNone(c: Codec, s: Store)
    ensures RewriteAll(c, s, []) == s
  {
  }

  /** Rewriting what the caps name: receipts and partitions, then snapshots. */
  lemma RewritesAre(c: Codec, v0: Store, policy: RetentionPolicy)
    ensures var v1 := if policy.maxReceiptsPerProfile.Some?
              then RewriteOne(c, RewriteOne(c, v0, QueryReceipts), PartitionMetadata) else v0;
      RewriteAll(c, v0, RetentionTables(policy))
      == if policy.maxSnapshotsPerScope.Some? then RewriteOne(c, v1, CatalogSnapshots) else v1
  {
    var rest := if policy.maxSnapshotsPerScope.Some? then [CatalogSnapshots] else [];
    var v1 := if policy.maxReceiptsPerProfile.Some?
      then RewriteOne(c, RewriteOne(c, v0, QueryReceipts), PartitionMetadata) else v0;
    assert RetentionTables(policy)
        == if policy.maxReceiptsPerProfile.Some? then [QueryReceipts] + ([PartitionMetadata] + rest) else rest;
    assert [CatalogSnapshots] + [] == [CatalogSnapshots];
    hide *;
    RewriteStep(c, v0, QueryReceipts, [PartitionMetadata] + rest);
    RewriteStep(c, RewriteOne(c, v0, QueryReceipts), PartitionMetadata, rest);
    RewriteStep(c, v1, CatalogSnapshots, []);
    RewriteNone(c, v1);
    RewriteNone(c, RewriteOne(c, v1, CatalogSnapshots));
  }

  lemma RewriteOneIs(c: Codec, s: Store, u: Table)
    ensures RewriteOne(c, s, u) == s[u := RewriteTable(c, s[u])]
  {
    hide RewriteTable;
  }

  lemma RetainIs(c: Codec, s: Store, policy: RetentionPolicy)
    ensures var (loaded, ok) := LoadInOrder(c, s, RetentionTables(policy));
      var evicted := EvictIn(loaded, policy);
      var count := RetainCount(MemOf(loaded), policy);
      Retain(c, s, policy)
      == if !ok then (loaded, LoadFailed)
         else (if count > 0 then RewriteAll(c, evicted, RetentionTables(policy)) else evicted, EvictedCount(count))
  {
    hide LoadInOrder, RetentionTables, EvictIn, RetainCount, MemOf, RewriteAll;
  }

  lemma AskIs(c: Codec, s: Store, q: Query)
    ensures var loaded := Load(c, s, QueryTable(q));
      StoreStep(c, s, Ask(q))
      == (loaded, if Loads(s[QueryTable(q)]) then Rows(MemAnswer(q, loaded[QueryTable(q)].mem)) else LoadFailed)
  {
    hide Load, Loads, MemAnswer, QueryTable;
  }

  lemma WriteAnswer(c: Codec, s: Store, r: Record)
    ensures StoreStep(c, s, WriteRecord(r))
         == (StoreModel.Write(c, s, r),
             if !Loads(s[TableOf(r)]) then LoadFailed else if c.accepts(r) then Done else Refused)
  {
    hide StoreModel.Write, Loads, TableOf;
  }

  function AddReports(a: CompactionReport, b: CompactionReport): CompactionReport {
    CompactionReport(a.linesBefore + b.linesBefore, a.linesAfter + b.linesAfter, a.tablesRewritten + b.tablesRewritten)
  }

  /** The report of a compaction, from the loaded store: what the three upsert tables' logs
      held, and hold. */
  function CompactionReportFor(loaded: Store): CompactionReport {
    AddReports(AddReports(ReportFor(loaded[Profiles]), ReportFor(loaded[DatasetManifests])), ReportFor(loaded[QueryPlans]))
  }

  lemma ReportIs(loaded: Store)
    ensures CompactionReportFor(loaded)
         == AddReports(AddReports(ReportFor(loaded[Profiles]), ReportFor(loaded[DatasetManifests])),
              ReportFor(loaded[QueryPlans]))
  {
    hide AddReports, ReportFor;
  }

  // ----- sequences of effects -----

  lemma EncodeStart(c: Codec, records: seq<Record>)
    ensures [] + EncodeAll(c, records[0..]) == EncodeAll(c, records)
  {
    assert records[0..] == records;
    assert forall text: seq<byte> :: [] + text == text;
  }

  lemma EncodeStep(c: Codec, records: seq<Record>, i: nat, buf: seq<byte>)
    requires i < |records|
    ensures buf + EncodeAll(c, records[i..]) == (buf + EncodedLine(c, records[i])) + EncodeAll(c, records[i + 1..])
  {
    hide EncodedLine;
    assert records[i..][0] == records[i] && records[i..][1..] == records[i + 1..];
    AppendAssociates(buf, EncodedLine(c, records[i]), EncodeAll(c, records[i + 1..]));
  }

  lemma EncodeEnd(c: Codec, records: seq<Record>, buf: seq<byte>)
    ensures buf + EncodeAll(c, records[|records|..]) == buf
  {
    assert records[|records|..] == [] && buf + [] == buf;
  }

  lemma SetTwice(s: Store, t: Table, a: TableState, b: TableState)
    ensures s[t := a][t] == a && s[t := a][t := b] == s[t := b]
  {
  }

  lemma WriteIs(c: Codec, t: Table, s: TableState, r: Record)
    ensures Loads(s) ==> LoadTable(c, t, s).loaded
    ensures WriteTable(c, t, s, r)
         == var loaded := LoadTable(c, t, s);
            var appended := AppendRecord(c, loaded, r);
            if !Loads(s) || !c.accepts(r) then loaded
            else if Compactable(t) then LazyCompact(c, appended) else appended
  {
    hide AppendRecord, LazyCompact, IsUtf8, ValidRecords, PutAll;
  }

  lemma WriteIsSet(c: Codec, s: Store, r: Record)
    ensures StoreModel.Write(c, s, r) == s[TableOf(r) := WriteTable(c, TableOf(r), s[TableOf(r)], r)]
  {
    hide WriteTable, TableOf;
  }

  lemma WriteSteps(c: Codec, v0: Store, r: Record, t: Table)
    requires t == TableOf(r)
    ensures var v1 := Load(c, v0, t);
      var v2 := v1[t := AppendRecord(c, v1[t], r)];
      StoreModel.Write(c, v0, r)
      == if !Loads(v0[t]) || !c.accepts(r) then v1
         else if Compactable(t) then v2[t := LazyCompact(c, v2[t])] else v2
  {
    var loaded := LoadTable(c, t, v0[t]);
    var appended := AppendRecord(c, loaded, r);
    hide *;
    WriteIsSet(c, v0, r);
    LoadIs(c, v0, t);
    WriteIs(c, t, v0[t], r);
    SetTwice(v0, t, loaded, appended);
    SetTwice(v0, t, appended, LazyCompact(c, appended));
  }

  // ----- what one table's policy comes to -----

  datatype CompactionReport = CompactionReport(linesBefore: nat, linesAfter: nat, tablesRewritten: nat)

  function ReportFor(s: TableState): CompactionReport {
    CompactionReport(s.lines, |s.mem|, if s.lines <= |s.mem| then 0 else 1)
  }

  lemma LazyCompactIs(c: Codec, s: TableState)
    ensures LazyCompact(c, s)
         == if s.lines >= MIN_SUPERSEDED
               && (if s.lines >= |s.mem| then s.lines - |s.mem| else 0) >= MIN_SUPERSEDED
               && s.lines >= 2 * |s.mem|
            then RewriteTable(c, s) else s
  {
    hide RewriteTable;
  }

  lemma CompactTableIs(c: Codec, s: TableState)
    ensures CompactTable(c, s) == if s.lines <= |s.mem| then s else RewriteTable(c, s)
    ensures ReportFor(s) == CompactionReport(s.lines, |s.mem|, if s.lines <= |s.mem| then 0 else 1)
  {
    hide RewriteTable;
  }

  lemma EmptyMemKeyed()
    ensures MemKeyed(EmptyMem())
  {
  }

  lemma OpenFields(c: Codec, f: Fields)
    requires Faithful(c) && |f.counts| == 10 && MemKeyed(f.tables)
    ensures FieldsOk(c, f)
  {
  }

  lemma OpenView(files: Files, counts: seq<nat>)
    requires |counts| == 10 && forall i :: 0 <= i < 10 ==> counts[i] == 0
    ensures StoreAt(Fields(files, EmptyMem(), 0, counts)) == Open(files)
  {
    var f := Fields(files, EmptyMem(), 0, counts);
    forall t: Table
      ensures StoreAt(f)[t] == Open(files)[t]
    {
      StoreAtIs(f, t);
    }
    hide *;
    SameStore(StoreAt(f), Open(files));
  }
}
