// When a log is rewritten and what a compaction reports, from the lines of the logs
// themselves.
module Compactions {
  import opened Prelude
  import opened Records
  import opened LogText
  import opened Utf8
  import opened Retention
  import opened StoreModel
  import opened StoreTheorems
  import opened Maintenance
  import opened StoreFields
  import opened FileStore

  // ----- one write -----

  /** A log has too many lines for its records: 64 or more, 64 of them superseded, and at
      least two for each record. */
  predicate TooLong(lines: nat, records: nat) {
    lines >= 64 && lines >= records + 64 && lines >= 2 * records
  }

  /** The bytes a write leaves. An accepted record is appended as one line; if that makes the
      log of a profile, manifest or plan too long, the log is rewritten to one line a record.
      A refused record leaves the log as it is. */
  lemma WrittenLog(c: Codec, s: Store, r: Record)
    requires Faithful(c) && Inv(c, s)
    ensures var t := TableOf(r);
            var before, after := s[t].text, Write(c, s, r)[t].text;
            var records := Put(Contents(c, t, before), r);
      after == (if !c.accepts(r) then before
                else if (r.Profile? || r.Manifest? || r.Plan?)
                        && TooLong(|ValidRecords(c, t, before)| + 1, |records|) then EncodeAll(c, Values(records))
                else before + (c.encode(r) + [NEWLINE]))
  {
    hide *;
    var t := TableOf(r);
    var loaded := LoadTable(c, t, s[t]);
    CompactedRecords(r);
    InvAt(c, s, t);
    InvLoads(c, s, t);
    LoadKeeps(c, t, s[t]);
    LoadedIsLoaded(c, t, loaded);
    LoadedLines(c, t, loaded);
    WriteSteps(c, s, r, t);
    LoadIs(c, s, t);
    AppendedIs(c, loaded, r);
    LazyIs(c, AppendRecord(c, loaded, r));
    SetTwice(s, t, loaded, AppendRecord(c, loaded, r));
    SetTwice(s, t, AppendRecord(c, loaded, r), LazyCompact(c, AppendRecord(c, loaded, r)));
  }

  lemma CompactedRecords(r: Record)
    ensures Compactable(TableOf(r)) <==> r.Profile? || r.Manifest? || r.Plan?
  {
  }

  lemma AppendedIs(c: Codec, s: TableState, r: Record)
    ensures var after := AppendRecord(c, s, r);
      after.text == s.text + (c.encode(r) + [NEWLINE]) && after.mem == Put(s.mem, r) && after.lines == s.lines + 1
  {
    hide Put;
  }

  lemma LazyIs(c: Codec, s: TableState)
    ensures LazyCompact(c, s).text == if TooLong(s.lines, |s.mem|) then EncodeAll(c, Values(s.mem)) else s.text
  {
    hide EncodeAll, Values;
  }

  // ----- compaction on demand -----

  lemma CompactedTable(c: Codec, t: Table, s: TableState)
    requires LoadedOk(c, t, s)
    ensures CompactTable(c, s).text
         == if |ValidRecords(c, t, s.text)| > |Contents(c, t, s.text)| then EncodeAll(c, Values(Contents(c, t, s.text)))
            else s.text
    ensures ReportFor(s)
         == CompactionReport(|ValidRecords(c, t, s.text)|, |Contents(c, t, s.text)|,
                             if |ValidRecords(c, t, s.text)| > |Contents(c, t, s.text)| then 1 else 0)
  {
    hide EncodeAll, Values, ValidRecords, PutAll, IsUtf8, Whole;
  }

  /** The bytes that compaction on demand leaves: the logs of the profiles, the manifests
      and the plans are rewritten to one line a record if they have more lines than
      records; no other log is touched. */
  lemma CompactedLogs(c: Codec, s: Store, t: Table)
    requires Faithful(c) && Inv(c, s)
    ensures Compact(c, s).1
    ensures var before, after := s[t].text, Compact(c, s).0[t].text;
      after == if (t == Profiles || t == DatasetManifests || t == QueryPlans)
                  && |ValidRecords(c, t, before)| > |Contents(c, t, before)|
               then EncodeAll(c, Values(Contents(c, t, before)))
               else before
  {
    hide *;
    CompactInv(c, s);
    UpsertIs(t);
    if Compactable(t) {
      InvAt(c, s, t);
      LoadKeeps(c, t, s[t]);
      CompactAt(c, s, t);
      CompactedTable(c, t, LoadTable(c, t, s[t]));
    } else {
      CompactElsewhere(c, s, t);
    }
  }

  lemma ReportSums(a: TableState, b: TableState, d: TableState, loaded: Store)
    requires loaded[Profiles] == a && loaded[DatasetManifests] == b && loaded[QueryPlans] == d
    ensures CompactionReportFor(loaded)
         == CompactionReport(ReportFor(a).linesBefore + ReportFor(b).linesBefore + ReportFor(d).linesBefore,
                             ReportFor(a).linesAfter + ReportFor(b).linesAfter + ReportFor(d).linesAfter,
                             ReportFor(a).tablesRewritten + ReportFor(b).tablesRewritten + ReportFor(d).tablesRewritten)
  {
    hide ReportFor;
  }

  /** The valid lines of a log. */
  function LineCount(c: Codec, s: Store, t: Table): nat {
    |ValidRecords(c, t, s[t].text)|
  }

  function OneIfShorter(c: Codec, before: Store, after: Store, t: Table): nat {
    if LineCount(c, after, t) < LineCount(c, before, t) then 1 else 0
  }

  /** The report of a compaction: the lines of the three logs before it, their lines after
      it, and how many of the three it made shorter. */
  lemma ReportMeans(c: Codec, s: Store)
    requires Faithful(c) && Inv(c, s)
    ensures var after := Compact(c, s).0;
      CompactionReportFor(LoadInOrder(c, s, UpsertTables()).0)
      == CompactionReport(LineCount(c, s, Profiles) + LineCount(c, s, DatasetManifests) + LineCount(c, s, QueryPlans),
                          LineCount(c, after, Profiles) + LineCount(c, after, DatasetManifests) + LineCount(c, after, QueryPlans),
                          OneIfShorter(c, s, after, Profiles) + OneIfShorter(c, s, after, DatasetManifests)
                          + OneIfShorter(c, s, after, QueryPlans))
  {
    var loaded := LoadInOrder(c, s, UpsertTables()).0;
    hide *;
    ReportSums(loaded[Profiles], loaded[DatasetManifests], loaded[QueryPlans], loaded);
    ReportOf(c, s, Profiles);
    ReportOf(c, s, DatasetManifests);
    ReportOf(c, s, QueryPlans);
  }

  lemma ReportOf(c: Codec, s: Store, t: Table)
    requires Faithful(c) && Inv(c, s) && (t == Profiles || t == DatasetManifests || t == QueryPlans)
    ensures var after := Compact(c, s).0;
      ReportFor(LoadInOrder(c, s, UpsertTables()).0[t])
      == CompactionReport(LineCount(c, s, t), LineCount(c, after, t), OneIfShorter(c, s, after, t))
  {
    LineCountIs(c, s, t);
    LineCountIs(c, Compact(c, s).0, t);
    ShorterIs(c, s, Compact(c, s).0, t);
    hide *;
    UpsertIs(t);
    InvAt(c, s, t);
    LoadKeeps(c, t, s[t]);
    LoadInOrderAt(c, s, UpsertTables(), t);
    CompactedTable(c, t, LoadTable(c, t, s[t]));
    CompactionIsCanonical(c, s, t);
    CompactInv(c, s);
    DurableAt(c, s, t);
    DurableAt(c, Compact(c, s).0, t);
    FewerRecords(c, t, s[t].text);
  }

  lemma LineCountIs(c: Codec, s: Store, t: Table)
    ensures LineCount(c, s, t) == |ValidRecords(c, t, s[t].text)|
  {
    hide ValidRecords;
  }

  lemma ShorterIs(c: Codec, before: Store, after: Store, t: Table)
    ensures OneIfShorter(c, before, after, t) == if LineCount(c, after, t) < LineCount(c, before, t) then 1 else 0
  {
    hide LineCount;
  }

  lemma FewerRecords(c: Codec, t: Table, text: seq<byte>)
    requires Faithful(c)
    ensures |Contents(c, t, text)| <= |ValidRecords(c, t, text)|
  {
    ContentsKeyed(c, t, text);
  }

  // ----- retention -----

  /** The bytes that retention leaves: if it evicts anything, the logs that the policy
      concerns are rewritten to what is kept, one line a record; else no log is. */
  lemma RetainedLogs(c: Codec, s: Store, policy: RetentionPolicy, t: Table)
    requires Faithful(c) && Inv(c, s)
    ensures Retain(c, s, policy).0[t].text
         == if RetainCount(Durable(c, s), policy) > 0
               && (|| (policy.maxReceiptsPerProfile.Some? && (t == QueryReceipts || t == PartitionMetadata))
                   || (policy.maxSnapshotsPerScope.Some? && t == CatalogSnapshots))
            then EncodeAll(c, Values(RetainedTable(Durable(c, s), policy, t)))
            else s[t].text
  {
    hide *;
    var s1 := LoadInOrder(c, s, RetentionTables(policy)).0;
    RetainIs(c, s, policy);
    TouchesAre(policy, t);
    TouchedAgree(c, s1, policy);
    RetainedReads(MemOf(s1), Durable(c, s), policy);
    RetainLoadedAt(c, s1, policy, t);
    LoadInOrderText(c, s, RetentionTables(policy), t);
    RetainStateText(c, s1[t], RetainedTable(MemOf(s1), policy, t),
                    RetainCount(MemOf(s1), policy) > 0 && RetentionTouches(policy, t));
  }

  lemma TouchesAre(policy: RetentionPolicy, t: Table)
    ensures RetentionTouches(policy, t)
       <==> || (policy.maxReceiptsPerProfile.Some? && (t == QueryReceipts || t == PartitionMetadata))
            || (policy.maxSnapshotsPerScope.Some? && t == CatalogSnapshots)
  {
  }

  lemma RetainIs(c: Codec, s: Store, policy: RetentionPolicy)
    requires Faithful(c) && Inv(c, s)
    ensures var s1 := LoadInOrder(c, s, RetentionTables(policy)).0;
      && Inv(c, s1) && Durable(c, s1) == Durable(c, s) && Retain(c, s, policy).0 == RetainLoaded(c, s1, policy)
      && forall u: Table :: RetentionTouches(policy, u) ==> s1[u].loaded
  {
    LoadInOrderInv(c, s, RetentionTables(policy));
    hide Inv, Durable, LoadInOrder, RetainLoaded, RetentionTables, RetainCount, MemOf, RetentionTouches;
    forall u: Table | RetentionTouches(policy, u)
      ensures LoadInOrder(c, s, RetentionTables(policy)).0[u].loaded
    {
      RetentionTablesAre(policy, u);
    }
  }

  lemma LoadInOrderText(c: Codec, s: Store, ts: seq<Table>, t: Table)
    requires Faithful(c) && Inv(c, s)
    ensures LoadInOrder(c, s, ts).0[t].text == s[t].text
  {
    hide *;
    InvAt(c, s, t);
    LoadKeeps(c, t, s[t]);
    LoadInOrderAt(c, s, ts, t);
  }

  lemma RetainStateText(c: Codec, s: TableState, retained: TableMap, rewrite: bool)
    ensures RetainState(c, s, retained, rewrite).text == if rewrite then EncodeAll(c, Values(retained)) else s.text
  {
    hide EncodeAll, Values;
  }
}
