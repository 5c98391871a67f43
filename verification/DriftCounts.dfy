// The summary's counts, from the snapshots' own rows: each total of the report is the
// number of rows, ids or relations it is said to count.
module DriftCounts {
  import opened Prelude
  import opened CatalogModel
  import opened Ordinals
  import opened Diff
  import opened DiffTheorems

  // ----- what is counted -----

  function IdsOf(s: Snapshot): set<string> {
    set d | d in s.datasets :: d.id
  }

  /** The rows of `target`, of datasets of both snapshots, whose normalised name no row of
      that dataset in `base` has. */
  function NewColumns(uni: Unicode, base: Snapshot, target: Snapshot): set<nat> {
    set j | 0 <= j < |target.columns|
      && target.columns[j].datasetId in IdsOf(base) * IdsOf(target)
      && forall i :: 0 <= i < |base.columns| && base.columns[i].datasetId == target.columns[j].datasetId ==>
           Normalize(uni, base.columns[i].column) != Normalize(uni, target.columns[j].column)
  }

  /** The rows of `base`, of datasets of both snapshots, whose first namesake in `target`
      differs in a tracked field. */
  ghost function ChangedColumns(uni: Unicode, base: Snapshot, target: Snapshot): set<nat> {
    set i | 0 <= i < |base.columns|
      && base.columns[i].datasetId in IdsOf(base) * IdsOf(target)
      && exists j: nat :: FirstNamed(uni, base.columns[i].datasetId, base.columns[i].column, target.columns, j)
                     && Tracked(target.columns[j]) != Tracked(base.columns[i])
  }

  /** The datasets of both snapshots with a different tracked manifest field, or a new, lost
      or changed column. */
  ghost function ChangedDatasets(uni: Unicode, base: Snapshot, target: Snapshot): set<string> {
    set id | id in IdsOf(base) * IdsOf(target)
      && (|| !SameFields(DatasetMap(base.datasets)[id], DatasetMap(target.datasets)[id])
          || (exists j :: j in NewColumns(uni, base, target) && target.columns[j].datasetId == id)
          || (exists i :: i in NewColumns(uni, target, base) && base.columns[i].datasetId == id)
          || (exists i :: i in ChangedColumns(uni, base, target) && base.columns[i].datasetId == id))
  }

  predicate SameFields(b: DatasetManifest, t: DatasetManifest) {
    && b.approxRowCount == t.approxRowCount && b.bytes == t.bytes
    && b.description == t.description && b.rightsClass == t.rightsClass
  }

  /** Of several manifests of one id the last counts. */
  lemma {:induction false} MapHoldsLast(datasets: seq<DatasetManifest>, i: nat)
    requires i < |datasets| && forall j :: i < j < |datasets| ==> datasets[j].id != datasets[i].id
    ensures datasets[i].id in DatasetMap(datasets) && DatasetMap(datasets)[datasets[i].id] == datasets[i]
    decreases |datasets|
  {
    if i < |datasets| - 1 {
      assert datasets[|datasets| - 1].id != datasets[i].id;
      MapHoldsLast(datasets[..|datasets| - 1], i);
    }
  }

  lemma MapIds(s: Snapshot)
    ensures DatasetMap(s.datasets).Keys == IdsOf(s)
  {
    var m := DatasetMap(s.datasets);
    assert forall id :: id in m ==> m[id].id == id && m[id] in s.datasets;
    assert forall d :: d in s.datasets ==> d.id in m;
    hide DatasetMap;
  }

  // ----- counting rows dataset by dataset -----

  /** The members of `hits` that are rows of the dataset. */
  function HitsOf(columns: seq<ColumnEntry>, hits: set<nat>, id: string): set<nat>
    requires forall j :: j in hits ==> j < |columns|
  {
    set j | j in hits && columns[j].datasetId == id
  }

  function SumOfHits(columns: seq<ColumnEntry>, hits: set<nat>, ids: seq<string>): nat
    requires forall j :: j in hits ==> j < |columns|
  {
    if ids == [] then 0 else |HitsOf(columns, hits, ids[0])| + SumOfHits(columns, hits, ids[1..])
  }

  predicate DistinctStrings(ids: seq<string>) {
    forall i, j :: 0 <= i < j < |ids| ==> ids[i] != ids[j]
  }

  lemma HeadApart<T>(at: seq<T>)
    requires at != [] && forall k, l :: 0 <= k < l < |at| ==> at[k] != at[l]
    ensures at[0] !in at[1..] && forall k, l :: 0 <= k < l < |at[1..]| ==> at[1..][k] != at[1..][l]
    ensures forall x :: x in at <==> x == at[0] || x in at[1..]
  {
    forall k, l | 0 <= k < l < |at[1..]|
      ensures at[1..][k] != at[1..][l]
    {
      assert at[1..][k] == at[k + 1] && at[1..][l] == at[l + 1];
    }
    forall k | 0 <= k < |at[1..]|
      ensures at[1..][k] != at[0]
    {
      assert at[1..][k] == at[k + 1];
    }
  }

  /** Members of a list without repetitions, counted by its head and the rest. */
  lemma HeadCounts<T>(at: seq<T>, all: set<T>, rest: set<T>)
    requires at != [] && at[0] !in at[1..] && forall x :: x in all ==> x in at
    requires forall x :: x in rest <==> x in at[1..] && x in all
    ensures |all| == |rest| + if at[0] in all then 1 else 0
  {
    assert forall x :: x in at <==> x == at[0] || x in at[1..];
    if at[0] in all {
      assert all == rest + {at[0]};
    } else {
      assert all == rest;
    }
  }

  /** Added up over distinct datasets, the rows of each are the rows of all. */
  lemma {:induction false} SumIsSize(columns: seq<ColumnEntry>, hits: set<nat>, ids: seq<string>)
    requires forall j :: j in hits ==> j < |columns| && columns[j].datasetId in ids
    requires DistinctStrings(ids)
    ensures SumOfHits(columns, hits, ids) == |hits|
    decreases |ids|
  {
    if ids == [] {
      assert hits == {};
    } else {
      var first := HitsOf(columns, hits, ids[0]);
      var rest := hits - first;
      HeadApart(ids);
      forall j | j in rest
        ensures columns[j].datasetId in ids[1..]
      {
      }
      SumIsSize(columns, rest, ids[1..]);
      RestOfHits(columns, hits, first, ids[1..], ids[0]);
      hide SumOfHits;
      assert hits == first + rest;
    }
  }

  lemma {:induction false} RestOfHits(columns: seq<ColumnEntry>, hits: set<nat>, first: set<nat>, ids: seq<string>, id: string)
    requires forall j :: j in hits ==> j < |columns|
    requires first == HitsOf(columns, hits, id) && id !in ids
    ensures SumOfHits(columns, hits - first, ids) == SumOfHits(columns, hits, ids)
    decreases |ids|
  {
    if ids != [] {
      assert ids[0] in ids;
      assert HitsOf(columns, hits - first, ids[0]) == HitsOf(columns, hits, ids[0]);
      RestOfHits(columns, hits, first, ids[1..], id);
    }
  }

  // ----- one dataset -----

  predicate Alone(uni: Unicode, c: ColumnEntry, others: seq<ColumnEntry>) {
    FindColumn(uni, c.column, others).None?
  }

  lemma UnmatchedStep(uni: Unicode, columns: seq<ColumnEntry>, at: seq<nat>, others: seq<ColumnEntry>)
    requires at != [] && forall k :: 0 <= k < |at| ==> at[k] < |columns|
    ensures |Unmatched(uni, Rows(columns, at), others)|
         == |Unmatched(uni, Rows(columns, at[1..]), others)|
            + if Alone(uni, columns[at[0]], others) then 1 else 0
  {
    hide FindColumn;
    assert Rows(columns, at)[1..] == Rows(columns, at[1..]);
  }

  /** The positions whose rows the other side has under no name. */
  lemma {:induction false} UnmatchedSize(uni: Unicode, columns: seq<ColumnEntry>, at: seq<nat>, others: seq<ColumnEntry>)
    requires forall k :: 0 <= k < |at| ==> at[k] < |columns|
    requires forall k, l :: 0 <= k < l < |at| ==> at[k] != at[l]
    ensures |Unmatched(uni, Rows(columns, at), others)|
         == |set j | j in at && Alone(uni, columns[j], others)|
    decreases |at|
  {
    var all := set j | j in at && Alone(uni, columns[j], others);
    if at == [] {
      assert all == {} && Rows(columns, at) == [];
    } else {
      hide *;
      var rest := set j | j in at[1..] && Alone(uni, columns[j], others);
      HeadApart(at);
      UnmatchedSize(uni, columns, at[1..], others);
      UnmatchedStep(uni, columns, at, others);
      HeadCounts(at, all, rest);
    }
  }

  predicate Differs(uni: Unicode, b: ColumnEntry, ts: seq<ColumnEntry>) {
    var found := FindColumn(uni, b.column, ts);
    found.Some? && Tracked(found.value) != Tracked(b)
  }

  lemma DiffersIs(uni: Unicode, b: ColumnEntry, ts: seq<ColumnEntry>)
    ensures |ModifiedOne(uni, b, ts)| == if Differs(uni, b, ts) then 1 else 0
  {
    var found := FindColumn(uni, b.column, ts);
    if found.Some? {
      UnchangedIsTracked(b, found.value);
    }
    hide FindColumn, CompareColumn, ColumnChanged, Tracked;
  }

  lemma ModifiedStep(uni: Unicode, columns: seq<ColumnEntry>, at: seq<nat>, ts: seq<ColumnEntry>)
    requires at != [] && forall k :: 0 <= k < |at| ==> at[k] < |columns|
    ensures |Modified(uni, Rows(columns, at), ts)|
         == |Modified(uni, Rows(columns, at[1..]), ts)| + if Differs(uni, columns[at[0]], ts) then 1 else 0
  {
    DiffersIs(uni, columns[at[0]], ts);
    hide Differs, ModifiedOne;
    assert Rows(columns, at)[1..] == Rows(columns, at[1..]);
  }

  lemma {:induction false} ModifiedSize(uni: Unicode, columns: seq<ColumnEntry>, at: seq<nat>, ts: seq<ColumnEntry>)
    requires forall k :: 0 <= k < |at| ==> at[k] < |columns|
    requires forall k, l :: 0 <= k < l < |at| ==> at[k] != at[l]
    ensures |Modified(uni, Rows(columns, at), ts)| == |set j | j in at && Differs(uni, columns[j], ts)|
    decreases |at|
  {
    var all := set j | j in at && Differs(uni, columns[j], ts);
    if at == [] {
      assert all == {};
    } else {
      var rest := set j | j in at[1..] && Differs(uni, columns[j], ts);
      hide *;
      HeadApart(at);
      ModifiedSize(uni, columns, at[1..], ts);
      ModifiedStep(uni, columns, at, ts);
      HeadCounts(at, all, rest);
    }
  }

  lemma ListsDistinct(id: string, columns: seq<ColumnEntry>, at: seq<nat>)
    requires Lists(id, columns, at)
    ensures forall k, l :: 0 <= k < l < |at| ==> at[k] != at[l]
    ensures forall j :: j in at <==> 0 <= j < |columns| && columns[j].datasetId == id
  {
    forall k, l | 0 <= k < l < |at|
      ensures at[k] != at[l]
    {
      assert Earlier(columns, at[k], at[l]);
    }
  }

  /** The columns listed as only on one side are the rows counted for their dataset. */
  lemma NewOfDataset(uni: Unicode, base: Snapshot, target: Snapshot, id: string)
    requires id in IdsOf(base) * IdsOf(target)
    ensures |Unmatched(uni, DatasetColumns(id, target.columns), DatasetColumns(id, base.columns))|
         == |HitsOf(target.columns, NewColumns(uni, base, target), id)|
  {
    var at := OrdinalOrder(id, target.columns);
    var others := DatasetColumns(id, base.columns);
    ListsDistinct(id, target.columns, at);
    UnmatchedSize(uni, target.columns, at, others);
    hide Unmatched, DatasetColumns, FindColumn, Normalize, IdsOf, Lists;
    forall j | j in at
      ensures Alone(uni, target.columns[j], others) <==> j in NewColumns(uni, base, target)
    {
      FoundIsFirst(uni, id, target.columns[j].column, base.columns);
    }
    assert (set j | j in at && Alone(uni, target.columns[j], others))
        == HitsOf(target.columns, NewColumns(uni, base, target), id);
  }

  lemma ChangedOfDataset(uni: Unicode, base: Snapshot, target: Snapshot, id: string)
    requires id in IdsOf(base) * IdsOf(target)
    ensures |Modified(uni, DatasetColumns(id, base.columns), DatasetColumns(id, target.columns))|
         == |HitsOf(base.columns, ChangedColumns(uni, base, target), id)|
  {
    var at := OrdinalOrder(id, base.columns);
    var others := DatasetColumns(id, target.columns);
    ListsDistinct(id, base.columns, at);
    ModifiedSize(uni, base.columns, at, others);
    hide Modified, DatasetColumns, FindColumn, Normalize, IdsOf, Lists, FirstNamed, Tracked;
    forall j | j in at
      ensures Differs(uni, base.columns[j], others) <==> j in ChangedColumns(uni, base, target)
    {
      FoundIsFirst(uni, id, base.columns[j].column, target.columns);
    }
    assert (set j | j in at && Differs(uni, base.columns[j], others))
        == HitsOf(base.columns, ChangedColumns(uni, base, target), id);
  }

  // ----- all datasets -----

  /** What one id of the base adds to the three totals. */
  lemma {:induction false} TotalsAre(uni: Unicode, base: Snapshot, target: Snapshot, ids: seq<string>)
    requires forall id :: id in ids ==> id in DatasetMap(base.datasets)
    ensures var ds := ModifiedDatasets(uni, base, target, ids);
      && CountAdded(ds) == SumOfHits(target.columns, NewColumns(uni, base, target), ids)
      && CountRemoved(ds) == SumOfHits(base.columns, NewColumns(uni, target, base), ids)
      && CountModified(ds) == SumOfHits(base.columns, ChangedColumns(uni, base, target), ids)
    decreases |ids|
  {
    if ids != [] {
      hide *;
      TotalsAre(uni, base, target, ids[1..]);
      OneTotal(uni, base, target, ids[0]);
      OneCount(uni, base, target, ids);
      RowsOnly(uni, base, target);
      RowsOnly(uni, target, base);
      OneSum(target.columns, NewColumns(uni, base, target), ids);
      OneSum(base.columns, NewColumns(uni, target, base), ids);
      OneSum(base.columns, ChangedColumns(uni, base, target), ids);
    } else {
      hide CommonDiff, DatasetMap, NewColumns, ChangedColumns;
    }
  }

  lemma RowsOnly(uni: Unicode, base: Snapshot, target: Snapshot)
    ensures forall j :: j in NewColumns(uni, base, target) ==> j < |target.columns|
    ensures forall i :: i in ChangedColumns(uni, base, target) ==> i < |base.columns|
  {
  }

  lemma OneSum(columns: seq<ColumnEntry>, hits: set<nat>, ids: seq<string>)
    requires ids != [] && forall j :: j in hits ==> j < |columns|
    ensures SumOfHits(columns, hits, ids) == |HitsOf(columns, hits, ids[0])| + SumOfHits(columns, hits, ids[1..])
  {
    hide HitsOf;
  }

  lemma OneCount(uni: Unicode, base: Snapshot, target: Snapshot, ids: seq<string>)
    requires ids != [] && forall id :: id in ids ==> id in DatasetMap(base.datasets)
    ensures var ds, rest := ModifiedDatasets(uni, base, target, ids), ModifiedDatasets(uni, base, target, ids[1..]);
      if ids[0] in DatasetMap(target.datasets) && DatasetChanged(CommonDiff(uni, base, target, ids[0])) then
        var d := CommonDiff(uni, base, target, ids[0]);
        && CountAdded(ds) == |d.columnsAdded| + CountAdded(rest)
        && CountRemoved(ds) == |d.columnsRemoved| + CountRemoved(rest)
        && CountModified(ds) == |d.columnsModified| + CountModified(rest)
      else ds == rest
  {
    var rest := ModifiedDatasets(uni, base, target, ids[1..]);
    hide DatasetMap, CommonDiff, DatasetChanged;
    if ids[0] in DatasetMap(target.datasets) && DatasetChanged(CommonDiff(uni, base, target, ids[0])) {
      var d := CommonDiff(uni, base, target, ids[0]);
      assert ModifiedDatasets(uni, base, target, ids) == [d] + rest && ([d] + rest)[1..] == rest;
    } else {
      assert ModifiedDatasets(uni, base, target, ids) == [] + rest == rest;
    }
  }

  lemma OneTotal(uni: Unicode, base: Snapshot, target: Snapshot, id: string)
    requires id in DatasetMap(base.datasets)
    ensures if id in DatasetMap(target.datasets) && DatasetChanged(CommonDiff(uni, base, target, id)) then
              var d := CommonDiff(uni, base, target, id);
              && |d.columnsAdded| == |HitsOf(target.columns, NewColumns(uni, base, target), id)|
              && |d.columnsRemoved| == |HitsOf(base.columns, NewColumns(uni, target, base), id)|
              && |d.columnsModified| == |HitsOf(base.columns, ChangedColumns(uni, base, target), id)|
            else
              && HitsOf(target.columns, NewColumns(uni, base, target), id) == {}
              && HitsOf(base.columns, NewColumns(uni, target, base), id) == {}
              && HitsOf(base.columns, ChangedColumns(uni, base, target), id) == {}
  {
    MapIds(base);
    MapIds(target);
    hide IdsOf, DatasetMap;
    if id in DatasetMap(target.datasets) {
      NewOfDataset(uni, base, target, id);
      NewOfDataset(uni, target, base, id);
      ChangedOfDataset(uni, base, target, id);
      hide Unmatched, Modified, NewColumns, ChangedColumns, HitsOf;
    }
  }

  // ----- the summary -----

  /** The column totals of the summary. */
  lemma ColumnTotals(uni: Unicode, base: Snapshot, target: Snapshot)
    ensures var summary := DiffOf(uni, base, target).summary;
      && summary.columnsAdded == |NewColumns(uni, base, target)|
      && summary.columnsRemoved == |NewColumns(uni, target, base)|
      && summary.columnsModified == |ChangedColumns(uni, base, target)|
  {
    var ids := Ids(DatasetMap(base.datasets));
    TotalsAre(uni, base, target, ids);
    MapIds(base);
    hide DatasetMap, CommonDiff, OnlyIn, ModifiedDatasets, CountAdded, CountRemoved, CountModified, IdsOf, Normalize,
         Tracked, FirstNamed;
    SumIsSize(target.columns, NewColumns(uni, base, target), ids);
    SumIsSize(base.columns, NewColumns(uni, target, base), ids);
    SumIsSize(base.columns, ChangedColumns(uni, base, target), ids);
  }

  lemma {:induction false} OnlyInSize(these: Datasets, others: Datasets, ids: seq<string>)
    requires DistinctStrings(ids) && forall id :: id in ids ==> id in these
    ensures |OnlyIn(these, others, ids)| == |set id | id in ids && id !in others|
    decreases |ids|
  {
    var all := set id | id in ids && id !in others;
    if ids == [] {
      assert all == {};
    } else {
      var rest := set id | id in ids[1..] && id !in others;
      HeadApart(ids);
      OnlyInSize(these, others, ids[1..]);
      HeadCounts(ids, all, rest);
    }
  }

  lemma {:induction false} ModifiedDatasetsSize(uni: Unicode, base: Snapshot, target: Snapshot, ids: seq<string>)
    requires DistinctStrings(ids) && forall id :: id in ids ==> id in DatasetMap(base.datasets)
    ensures |ModifiedDatasets(uni, base, target, ids)| == |set id | id in ids && id in ChangedDatasets(uni, base, target)|
    decreases |ids|
  {
    var all := set id | id in ids && id in ChangedDatasets(uni, base, target);
    if ids == [] {
      assert all == {};
    } else {
      var rest := set id | id in ids[1..] && id in ChangedDatasets(uni, base, target);
      HeadApart(ids);
      ModifiedDatasetsSize(uni, base, target, ids[1..]);
      ChangedIs(uni, base, target, ids[0]);
      hide DatasetMap, CommonDiff, DatasetChanged, ChangedDatasets;
      HeadCounts(ids, all, rest);
    }
  }

  lemma EmptyHits(columns: seq<ColumnEntry>, hits: set<nat>, id: string)
    requires forall j :: j in hits ==> j < |columns|
    ensures |HitsOf(columns, hits, id)| == 0 <==> forall j :: j in hits ==> columns[j].datasetId != id
  {
    var own := HitsOf(columns, hits, id);
    if |own| == 0 {
      assert own == {};
      forall j | j in hits
        ensures columns[j].datasetId != id
      {
        assert j !in own;
      }
    } else {
      assert own != {};
      var j :| j in own;
    }
  }

  lemma ChangedIs(uni: Unicode, base: Snapshot, target: Snapshot, id: string)
    requires id in DatasetMap(base.datasets)
    ensures id in ChangedDatasets(uni, base, target)
       <==> id in DatasetMap(target.datasets) && DatasetChanged(CommonDiff(uni, base, target, id))
  {
    MapIds(base);
    MapIds(target);
    hide IdsOf, DatasetMap;
    if id in DatasetMap(target.datasets) {
      NewOfDataset(uni, base, target, id);
      NewOfDataset(uni, target, base, id);
      ChangedOfDataset(uni, base, target, id);
      hide Unmatched, Modified, NewColumns, ChangedColumns, HitsOf, DatasetColumns;
      EmptyHits(target.columns, NewColumns(uni, base, target), id);
      EmptyHits(base.columns, NewColumns(uni, target, base), id);
      EmptyHits(base.columns, ChangedColumns(uni, base, target), id);
    }
  }

  lemma SummaryIs(uni: Unicode, base: Snapshot, target: Snapshot)
    ensures var summary, bm, tm := DiffOf(uni, base, target).summary, DatasetMap(base.datasets), DatasetMap(target.datasets);
      && summary.datasetsAdded == |OnlyIn(tm, bm, Ids(tm))| && summary.datasetsRemoved == |OnlyIn(bm, tm, Ids(bm))|
      && summary.datasetsModified == |ModifiedDatasets(uni, base, target, Ids(bm))|
  {
    hide DatasetMap, OnlyIn, ModifiedDatasets, CountAdded, CountRemoved, CountModified;
  }

  lemma IdsAre(m: Datasets)
    ensures (forall id :: id in Ids(m) <==> id in m) && DistinctStrings(Ids(m))
  {
  }

  /** The dataset totals of the summary. */
  lemma DatasetTotals(uni: Unicode, base: Snapshot, target: Snapshot)
    ensures var summary := DiffOf(uni, base, target).summary;
      && summary.datasetsAdded == |IdsOf(target) - IdsOf(base)|
      && summary.datasetsRemoved == |IdsOf(base) - IdsOf(target)|
      && summary.datasetsModified == |ChangedDatasets(uni, base, target)|
  {
    ChangedAreCommon(uni, base, target);
    hide *;
    var bm, tm := DatasetMap(base.datasets), DatasetMap(target.datasets);
    SummaryIs(uni, base, target);
    IdsAre(bm);
    IdsAre(tm);
    OnlyInSize(tm, bm, Ids(tm));
    OnlyInSize(bm, tm, Ids(bm));
    ModifiedDatasetsSize(uni, base, target, Ids(bm));
    MapIds(base);
    MapIds(target);
    IdsApart(tm, bm);
    IdsApart(bm, tm);
    assert (set id | id in Ids(bm) && id in ChangedDatasets(uni, base, target)) == ChangedDatasets(uni, base, target);
  }

  lemma IdsApart(these: Datasets, others: Datasets)
    ensures (set id | id in Ids(these) && id !in others) == these.Keys - others.Keys
  {
    hide *;
    IdsAre(these);
  }

  lemma ChangedAreCommon(uni: Unicode, base: Snapshot, target: Snapshot)
    ensures ChangedDatasets(uni, base, target) <= IdsOf(base)
  {
    MapIds(base);
    MapIds(target);
    hide NewColumns, ChangedColumns, DatasetMap, IdsOf;
  }

  /** The relations listed, and their totals: only where both snapshots looked for them. */
  lemma RelationTotals(uni: Unicode, base: Snapshot, target: Snapshot)
    ensures var d, compared := DiffOf(uni, base, target), base.relationsDiscovered && target.relationsDiscovered;
      && (forall r :: r in d.relationsAdded <==> compared && r in target.relations && r !in base.relations)
      && (forall r :: r in d.relationsRemoved <==> compared && r in base.relations && r !in target.relations)
      && d.summary.relationsAdded == |d.relationsAdded| && d.summary.relationsRemoved == |d.relationsRemoved|
  {
    hide DatasetMap, OnlyIn, ModifiedDatasets, CountAdded, CountRemoved, CountModified;
  }
}
