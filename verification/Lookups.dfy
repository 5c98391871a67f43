// What each lookup answers, from the records' own fields.
module Lookups {
  import opened Prelude
  import opened Keys
  import opened Records
  import opened Selection

  // ----- lists and first rows -----

  /** A lookup of a list gives exactly the matching rows, in its order. */
  lemma ListAnswer(q: Query, t: Table, m: TableMap)
    requires Keyed(t, m) && !OnlyFirst(q)
    ensures Ordered(OrderOf(q), MemAnswer(q, m))
    ensures forall r :: r in MemAnswer(q, m) <==> r in m.Values && Matches(q, r)
  {
    hide Keyed, MemAnswer, Ordered, Matches, OrderOf;
    MemAnswerIsSqlAnswer(q, t, m);
  }

  /** A lookup of one record gives the first matching row in its order, if there is one. */
  lemma FirstAnswer(q: Query, t: Table, m: TableMap)
    requires Keyed(t, m) && OnlyFirst(q)
    ensures |MemAnswer(q, m)| <= 1
    ensures MemAnswer(q, m) == [] <==> forall r :: r in m.Values ==> !Matches(q, r)
    ensures MemAnswer(q, m) != [] ==>
              var top := MemAnswer(q, m)[0];
              && top in m.Values && Matches(q, top)
              && forall r :: r in m.Values && Matches(q, r) && r != top ==> Precedes(OrderOf(q), top, r)
  {
    hide Keyed, MemAnswer, Matches, OrderOf, Precedes;
    MemAnswerIsSqlAnswer(q, t, m);
    var full: seq<Record> :| Ordered(OrderOf(q), full) && (forall r :: r in full <==> r in m.Values && Matches(q, r))
                             && MemAnswer(q, m) == if full != [] then [full[0]] else full;
    EmptyRows(full);
    if full != [] {
      assert full[0] in full;
      forall r | r in full && r != full[0]
        ensures Precedes(OrderOf(q), full[0], r)
      {
        var i :| 0 <= i < |full| && full[i] == r;
      }
    }
  }

  lemma OfTable(t: Table, m: TableMap, r: Record)
    requires Keyed(t, m) && r in m.Values
    ensures TableOf(r) == t && KeyOf(r) in m && m[KeyOf(r)] == r
  {
    var k :| k in m && m[k] == r;
  }

  // ----- the orders -----

  /** Later, or at one time the greater id. */
  predicate SnapshotsNewestFirst(rows: seq<Record>) {
    forall i, j :: 0 <= i < j < |rows| ==>
      && rows[i].Snapshot? && rows[j].Snapshot?
      && (rows[i].time > rows[j].time || (rows[i].time == rows[j].time && StringLess(rows[j].id, rows[i].id)))
  }

  predicate PartitionsByIndex(rows: seq<Record>) {
    forall i, j :: 0 <= i < j < |rows| ==> rows[i].Partition? && rows[j].Partition? && rows[i].index < rows[j].index
  }

  /** Later, or at one time the smaller id. */
  predicate ExportsNewestFirst(rows: seq<Record>) {
    forall i, j :: 0 <= i < j < |rows| ==>
      && rows[i].Export? && rows[j].Export?
      && (rows[i].time > rows[j].time || (rows[i].time == rows[j].time && StringLess(rows[i].id, rows[j].id)))
  }

  predicate CostsNewestFirst(rows: seq<Record>) {
    forall i, j :: 0 <= i < j < |rows| ==>
      && rows[i].Cost? && rows[j].Cost?
      && (rows[i].time > rows[j].time || (rows[i].time == rows[j].time && StringLess(rows[i].id, rows[j].id)))
  }

  /** Earlier, or at one time the smaller id. */
  predicate EventsOldestFirst(rows: seq<Record>) {
    forall i, j :: 0 <= i < j < |rows| ==>
      && rows[i].Audit? && rows[j].Audit?
      && (rows[i].time < rows[j].time || (rows[i].time == rows[j].time && StringLess(rows[i].id, rows[j].id)))
  }

  predicate ProfilesById(rows: seq<Record>) {
    forall i, j :: 0 <= i < j < |rows| ==>
      rows[i].Profile? && rows[j].Profile? && StringLess(rows[i].id, rows[j].id)
  }

  predicate ManifestsById(rows: seq<Record>) {
    forall i, j :: 0 <= i < j < |rows| ==>
      rows[i].Manifest? && rows[j].Manifest? && StringLess(rows[i].id, rows[j].id)
  }

  lemma OneId(id: string, other: string)
    ensures KeyLess(Key(id, 0), Key(other, 0)) <==> StringLess(id, other)
  {
  }

  // ----- what two neighbouring rows say of their fields -----

  lemma SnapshotPair(a: Record, b: Record)
    requires a.Snapshot? && b.Snapshot?
    ensures Precedes(NewestFirst, a, b) <==> a.time > b.time || (a.time == b.time && StringLess(b.id, a.id))
  {
    OneId(b.id, a.id);
    hide KeyLess, StringLess;
  }

  lemma ReceiptPair(a: Record, b: Record)
    requires a.Receipt? && b.Receipt?
    ensures Precedes(NewestFirst, a, b) <==> a.time > b.time || (a.time == b.time && StringLess(b.id, a.id))
  {
    OneId(b.id, a.id);
    hide KeyLess, StringLess;
  }

  lemma ExportPair(a: Record, b: Record)
    requires a.Export? && b.Export?
    ensures Precedes(NewestFirstThenId, a, b) <==> a.time > b.time || (a.time == b.time && StringLess(a.id, b.id))
  {
    OneId(a.id, b.id);
    hide KeyLess, StringLess;
  }

  lemma CostPair(a: Record, b: Record)
    requires a.Cost? && b.Cost?
    ensures Precedes(NewestFirstThenId, a, b) <==> a.time > b.time || (a.time == b.time && StringLess(a.id, b.id))
  {
    OneId(a.id, b.id);
    hide KeyLess, StringLess;
  }

  lemma EventPair(a: Record, b: Record)
    requires a.Audit? && b.Audit?
    ensures Precedes(OldestFirst, a, b) <==> a.time < b.time || (a.time == b.time && StringLess(a.id, b.id))
  {
    OneId(a.id, b.id);
    hide KeyLess, StringLess;
  }

  lemma PartitionPair(a: Record, b: Record)
    requires a.Partition? && b.Partition? && a.receiptId == b.receiptId
    ensures Precedes(ByKey, a, b) <==> a.index < b.index
  {
    StringLessIrreflexive(a.receiptId);
    hide StringLess;
  }

  lemma IdPair(a: Record, b: Record)
    requires (a.Profile? && b.Profile?) || (a.Manifest? && b.Manifest?)
    ensures Precedes(ByKey, a, b) <==> StringLess(a.id, b.id)
  {
    OneId(a.id, b.id);
    hide KeyLess, StringLess;
  }

  lemma OrderedPair(o: Order, rows: seq<Record>, i: nat, j: nat)
    requires Ordered(o, rows) && i < j < |rows|
    ensures Precedes(o, rows[i], rows[j]) && rows[i] in rows && rows[j] in rows
  {
    hide Precedes;
  }

  // ----- the lookups -----

  lemma SnapshotsSelect(p: string, d: Option<string>, s: Option<string>, r: Record)
    ensures OrderOf(Snapshots(p, d, s)) == NewestFirst && !OnlyFirst(Snapshots(p, d, s))
    ensures Matches(Snapshots(p, d, s), r)
       <==> r.Snapshot? && r.profileId == p && (d.Some? ==> r.database == d) && (s.Some? ==> r.schema == s)
  {
  }

  /** `catalog_snapshots`: the snapshots of the profile and, where they are asked for, of
      exactly that database and that schema; newest first. */
  lemma SnapshotsAnswer(p: string, d: Option<string>, s: Option<string>, m: TableMap)
    requires Keyed(CatalogSnapshots, m)
    ensures var rows := MemAnswer(Snapshots(p, d, s), m);
      && (forall r :: r in rows <==>
            && r in m.Values && r.Snapshot? && r.profileId == p
            && (d.Some? ==> r.database == d) && (s.Some? ==> r.schema == s))
      && SnapshotsNewestFirst(rows)
  {
    hide Keyed, MemAnswer, Matches, OrderOf, OnlyFirst, Ordered, Precedes, StringLess;
    var q := Snapshots(p, d, s);
    var rows := MemAnswer(q, m);
    forall r {
      SnapshotsSelect(p, d, s, r);
    }
    SnapshotsSelect(p, d, s, Profile("", ""));
    ListAnswer(q, CatalogSnapshots, m);
    forall i, j | 0 <= i < j < |rows|
      ensures rows[i].Snapshot? && rows[j].Snapshot?
        && (rows[i].time > rows[j].time || (rows[i].time == rows[j].time && StringLess(rows[j].id, rows[i].id)))
    {
      OrderedPair(NewestFirst, rows, i, j);
      SnapshotPair(rows[i], rows[j]);
    }
  }

  predicate Succeeded(plan: string, r: Record) {
    r.Receipt? && r.planId == plan && r.outcome == "ok"
  }

  predicate OfQueryId(p: string, id: string, r: Record) {
    r.Receipt? && r.profileId == p && r.queryId == Some(id)
  }

  /** The latest of the receipts, at one time the one with the greatest id. */
  predicate LatestOf(rows: seq<Record>, receipts: set<Record>) {
    && |rows| <= 1
    && (rows == [] <==> receipts == {})
    && (rows != [] ==>
         && rows[0] in receipts && rows[0].Receipt?
         && forall r :: r in receipts && r != rows[0] ==>
              r.Receipt? && (rows[0].time > r.time || (rows[0].time == r.time && StringLess(r.id, rows[0].id))))
  }

  lemma SuccessfulSelect(plan: string, r: Record)
    ensures OrderOf(LatestSuccessful(plan)) == NewestFirst && OnlyFirst(LatestSuccessful(plan))
    ensures Matches(LatestSuccessful(plan), r) <==> Succeeded(plan, r)
  {
  }

  lemma QueryIdSelect(p: string, id: string, r: Record)
    ensures OrderOf(LatestByQueryId(p, id)) == NewestFirst && OnlyFirst(LatestByQueryId(p, id))
    ensures Matches(LatestByQueryId(p, id), r) <==> OfQueryId(p, id, r)
  {
  }

  lemma LatestReceipt(q: Query, m: TableMap, receipts: set<Record>)
    requires Keyed(QueryReceipts, m) && OnlyFirst(q) && OrderOf(q) == NewestFirst
    requires forall r :: r in receipts <==> r in m.Values && Matches(q, r)
    requires forall r :: r in receipts ==> r.Receipt?
    ensures LatestOf(MemAnswer(q, m), receipts)
  {
    hide Keyed, MemAnswer, Matches, OrderOf, OnlyFirst, Precedes, StringLess;
    FirstAnswer(q, QueryReceipts, m);
    var rows := MemAnswer(q, m);
    if rows != [] {
      forall r | r in receipts && r != rows[0]
        ensures rows[0].time > r.time || (rows[0].time == r.time && StringLess(r.id, rows[0].id))
      {
        ReceiptPair(rows[0], r);
      }
    }
  }

  /** `latest_successful_receipt`: of the plan's receipts with outcome "ok". */
  lemma LatestSuccessfulAnswer(plan: string, m: TableMap)
    requires Keyed(QueryReceipts, m)
    ensures LatestOf(MemAnswer(LatestSuccessful(plan), m),
              set r | r in m.Values && r.Receipt? && r.planId == plan && r.outcome == "ok")
  {
    hide Keyed, MemAnswer, Matches, OrderOf, OnlyFirst, LatestOf;
    forall r {
      SuccessfulSelect(plan, r);
    }
    SuccessfulSelect(plan, Profile("", ""));
    LatestReceipt(LatestSuccessful(plan), m,
      set r | r in m.Values && r.Receipt? && r.planId == plan && r.outcome == "ok");
  }

  /** `receipt_by_snowflake_query_id`: of the profile's receipts with that query id. */
  lemma LatestByQueryIdAnswer(p: string, id: string, m: TableMap)
    requires Keyed(QueryReceipts, m)
    ensures LatestOf(MemAnswer(LatestByQueryId(p, id), m),
              set r | r in m.Values && r.Receipt? && r.profileId == p && r.queryId == Some(id))
  {
    hide Keyed, MemAnswer, Matches, OrderOf, OnlyFirst, LatestOf;
    forall r {
      QueryIdSelect(p, id, r);
    }
    QueryIdSelect(p, id, Profile("", ""));
    LatestReceipt(LatestByQueryId(p, id), m,
      set r | r in m.Values && r.Receipt? && r.profileId == p && r.queryId == Some(id));
  }

  lemma PartitionsSelect(id: string, r: Record)
    ensures OrderOf(PartitionsFor(id)) == ByKey && !OnlyFirst(PartitionsFor(id))
    ensures Matches(PartitionsFor(id), r) <==> r.Partition? && r.receiptId == id
  {
  }

  /** `partitions_for_receipt`: the receipt's partitions, by index. */
  lemma PartitionsAnswer(id: string, m: TableMap)
    requires Keyed(PartitionMetadata, m)
    ensures var rows := MemAnswer(PartitionsFor(id), m);
      && (forall r :: r in rows <==> r in m.Values && r.Partition? && r.receiptId == id)
      && PartitionsByIndex(rows)
  {
    hide Keyed, MemAnswer, Matches, OrderOf, OnlyFirst, Ordered, Precedes, StringLess;
    var rows := MemAnswer(PartitionsFor(id), m);
    forall r {
      PartitionsSelect(id, r);
    }
    PartitionsSelect(id, Profile("", ""));
    ListAnswer(PartitionsFor(id), PartitionMetadata, m);
    forall i, j | 0 <= i < j < |rows|
      ensures rows[i].Partition? && rows[j].Partition? && rows[i].index < rows[j].index
    {
      OrderedPair(ByKey, rows, i, j);
      PartitionPair(rows[i], rows[j]);
    }
  }

  lemma ExportsSelect(id: string, r: Record)
    ensures OrderOf(ExportsFor(id)) == NewestFirstThenId && !OnlyFirst(ExportsFor(id))
    ensures Matches(ExportsFor(id), r) <==> r.Export? && r.receiptId == id
  {
  }

  /** `exports_for_receipt`: the receipt's exports, newest first. */
  lemma ExportsAnswer(id: string, m: TableMap)
    requires Keyed(Exports, m)
    ensures var rows := MemAnswer(ExportsFor(id), m);
      && (forall r :: r in rows <==> r in m.Values && r.Export? && r.receiptId == id)
      && ExportsNewestFirst(rows)
  {
    hide Keyed, MemAnswer, Matches, OrderOf, OnlyFirst, Ordered, Precedes, StringLess;
    var rows := MemAnswer(ExportsFor(id), m);
    forall r {
      ExportsSelect(id, r);
    }
    ExportsSelect(id, Profile("", ""));
    ListAnswer(ExportsFor(id), Exports, m);
    forall i, j | 0 <= i < j < |rows|
      ensures rows[i].Export? && rows[j].Export?
        && (rows[i].time > rows[j].time || (rows[i].time == rows[j].time && StringLess(rows[i].id, rows[j].id)))
    {
      OrderedPair(NewestFirstThenId, rows, i, j);
      ExportPair(rows[i], rows[j]);
    }
  }

  lemma CostsSelect(p: string, r: Record)
    ensures OrderOf(CostFor(p)) == NewestFirstThenId && !OnlyFirst(CostFor(p))
    ensures Matches(CostFor(p), r) <==> r.Cost? && r.profileId == p
  {
  }

  /** `cost_history_for_profile`: the profile's cost rows, newest first. */
  lemma CostsAnswer(p: string, m: TableMap)
    requires Keyed(CostHistory, m)
    ensures var rows := MemAnswer(CostFor(p), m);
      && (forall r :: r in rows <==> r in m.Values && r.Cost? && r.profileId == p)
      && CostsNewestFirst(rows)
  {
    hide Keyed, MemAnswer, Matches, OrderOf, OnlyFirst, Ordered, Precedes, StringLess;
    var rows := MemAnswer(CostFor(p), m);
    forall r {
      CostsSelect(p, r);
    }
    CostsSelect(p, Profile("", ""));
    ListAnswer(CostFor(p), CostHistory, m);
    forall i, j | 0 <= i < j < |rows|
      ensures rows[i].Cost? && rows[j].Cost?
        && (rows[i].time > rows[j].time || (rows[i].time == rows[j].time && StringLess(rows[i].id, rows[j].id)))
    {
      OrderedPair(NewestFirstThenId, rows, i, j);
      CostPair(rows[i], rows[j]);
    }
  }

  lemma OfConstructor(t: Table, m: TableMap, r: Record)
    requires Keyed(t, m) && r in m.Values
    ensures t.AuditLog? ==> r.Audit?
    ensures t.Profiles? ==> r.Profile?
    ensures t.DatasetManifests? ==> r.Manifest?
  {
    OfTable(t, m, r);
  }

  lemma AuditEventsSelect(r: Record)
    ensures OrderOf(AuditEvents) == OldestFirst && !OnlyFirst(AuditEvents)
    ensures Matches(AuditEvents, r) <==> true
  {
  }

  lemma EventsOldestFirstWhen(rows: seq<Record>)
    requires Ordered(OldestFirst, rows) && forall r :: r in rows ==> r.Audit?
    ensures EventsOldestFirst(rows)
  {
    forall i, j | 0 <= i < j < |rows|
      ensures rows[i].Audit? && rows[j].Audit?
        && (rows[i].time < rows[j].time || (rows[i].time == rows[j].time && StringLess(rows[i].id, rows[j].id)))
    {
      assert rows[i] in rows && rows[j] in rows;
      OrderedPair(OldestFirst, rows, i, j);
      EventPair(rows[i], rows[j]);
    }
  }

  /** `audit_events`: every event, oldest first. */
  lemma AuditEventsAnswer(m: TableMap)
    requires Keyed(AuditLog, m)
    ensures var rows := MemAnswer(AuditEvents, m);
      && (forall r :: r in rows <==> r in m.Values)
      && EventsOldestFirst(rows)
  {
    hide Keyed, MemAnswer, Matches, OrderOf, OnlyFirst, Ordered, Precedes, StringLess;
    var rows := MemAnswer(AuditEvents, m);
    forall r {
      AuditEventsSelect(r);
    }
    AuditEventsSelect(Profile("", ""));
    ListAnswer(AuditEvents, AuditLog, m);
    forall r | r in rows
      ensures r.Audit?
    {
      OfConstructor(AuditLog, m, r);
    }
    EventsOldestFirstWhen(rows);
  }

  lemma ProfilesSelect(r: Record)
    ensures OrderOf(Everything(Profiles)) == ByKey && !OnlyFirst(Everything(Profiles))
    ensures Matches(Everything(Profiles), r) <==> true
  {
  }

  lemma ProfilesByIdWhen(rows: seq<Record>)
    requires Ordered(ByKey, rows) && forall r :: r in rows ==> r.Profile?
    ensures ProfilesById(rows)
  {
    forall i, j | 0 <= i < j < |rows|
      ensures rows[i].Profile? && rows[j].Profile? && StringLess(rows[i].id, rows[j].id)
    {
      assert rows[i] in rows && rows[j] in rows;
      OrderedPair(ByKey, rows, i, j);
      IdPair(rows[i], rows[j]);
    }
  }

  /** `profiles`: every profile, by id. */
  lemma ProfilesAnswer(m: TableMap)
    requires Keyed(Profiles, m)
    ensures var rows := MemAnswer(Everything(Profiles), m);
      && (forall r :: r in rows <==> r in m.Values)
      && ProfilesById(rows)
  {
    hide Keyed, MemAnswer, Matches, OrderOf, OnlyFirst, Ordered, Precedes, StringLess;
    var rows := MemAnswer(Everything(Profiles), m);
    forall r {
      ProfilesSelect(r);
    }
    ProfilesSelect(Profile("", ""));
    ListAnswer(Everything(Profiles), Profiles, m);
    forall r | r in rows
      ensures r.Profile?
    {
      OfConstructor(Profiles, m, r);
    }
    ProfilesByIdWhen(rows);
  }

  lemma ManifestsSelect(r: Record)
    ensures OrderOf(Everything(DatasetManifests)) == ByKey && !OnlyFirst(Everything(DatasetManifests))
    ensures Matches(Everything(DatasetManifests), r) <==> true
  {
  }

  lemma ManifestsByIdWhen(rows: seq<Record>)
    requires Ordered(ByKey, rows) && forall r :: r in rows ==> r.Manifest?
    ensures ManifestsById(rows)
  {
    forall i, j | 0 <= i < j < |rows|
      ensures rows[i].Manifest? && rows[j].Manifest? && StringLess(rows[i].id, rows[j].id)
    {
      assert rows[i] in rows && rows[j] in rows;
      OrderedPair(ByKey, rows, i, j);
      IdPair(rows[i], rows[j]);
    }
  }

  /** `dataset_ids`: every manifest, by id. */
  lemma ManifestsAnswer(m: TableMap)
    requires Keyed(DatasetManifests, m)
    ensures var rows := MemAnswer(Everything(DatasetManifests), m);
      && (forall r :: r in rows <==> r in m.Values)
      && ManifestsById(rows)
  {
    hide Keyed, MemAnswer, Matches, OrderOf, OnlyFirst, Ordered, Precedes, StringLess;
    var rows := MemAnswer(Everything(DatasetManifests), m);
    forall r {
      ManifestsSelect(r);
    }
    ManifestsSelect(Profile("", ""));
    ListAnswer(Everything(DatasetManifests), DatasetManifests, m);
    forall r | r in rows
      ensures r.Manifest?
    {
      OfConstructor(DatasetManifests, m, r);
    }
    ManifestsByIdWhen(rows);
  }
}
