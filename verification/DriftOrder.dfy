// The order in which the drift report lists things, and the names it gives them.
module DriftOrder {
  import opened Prelude
  import opened CatalogModel
  import opened Keys
  import opened Diff

  predicate IdsAscend(ids: seq<string>) {
    forall i, j :: 0 <= i < j < |ids| ==> StringLess(ids[i], ids[j])
  }

  lemma IdsInOrder(m: Datasets)
    ensures IdsAscend(Ids(m))
  {
    var keys := set id | id in m :: Key(id, 0);
    var sorted := SortedKeys(keys);
    assert Ids(m) == seq(|sorted|, i requires 0 <= i < |sorted| => sorted[i].id);
    forall i, j | 0 <= i < j < |sorted|
      ensures StringLess(sorted[i].id, sorted[j].id)
    {
      assert sorted[i] in keys && sorted[j] in keys;
      assert KeyLess(sorted[i], sorted[j]);
    }
  }

  lemma TailAscends(ids: seq<string>)
    requires IdsAscend(ids) && ids != []
    ensures IdsAscend(ids[1..]) && forall id :: id in ids[1..] ==> StringLess(ids[0], id)
  {
    forall id | id in ids[1..]
      ensures StringLess(ids[0], id)
    {
      var i :| 0 <= i < |ids[1..]| && ids[1..][i] == id;
      assert ids[i + 1] == id;
    }
    forall i, j | 0 <= i < j < |ids[1..]|
      ensures StringLess(ids[1..][i], ids[1..][j])
    {
      assert ids[1..][i] == ids[i + 1] && ids[1..][j] == ids[j + 1];
    }
  }

  function IdsIn(ds: seq<DatasetManifest>): seq<string> {
    seq(|ds|, i requires 0 <= i < |ds| => ds[i].id)
  }

  lemma OnlyInStep(these: Datasets, others: Datasets, ids: seq<string>)
    requires ids != [] && (forall id :: id in ids ==> id in these) && forall id :: id in these ==> these[id].id == id
    ensures IdsIn(OnlyIn(these, others, ids))
         == (if ids[0] !in others then [ids[0]] else []) + IdsIn(OnlyIn(these, others, ids[1..]))
  {
  }

  lemma AscendNext(id: string, ids: seq<string>)
    requires IdsAscend(ids) && forall x :: x in ids ==> StringLess(id, x)
    ensures IdsAscend([id] + ids)
  {
    hide StringLess;
    forall j | 0 < j < |[id] + ids|
      ensures StringLess(id, ([id] + ids)[j])
    {
      assert ([id] + ids)[j] == ids[j - 1] && ids[j - 1] in ids;
    }
  }

  lemma {:induction false} OnlyInOrder(these: Datasets, others: Datasets, ids: seq<string>)
    requires IdsAscend(ids) && (forall id :: id in ids ==> id in these) && forall id :: id in these ==> these[id].id == id
    ensures var r := IdsIn(OnlyIn(these, others, ids)); IdsAscend(r) && forall id :: id in r ==> id in ids
    decreases |ids|
  {
    if ids != [] {
      hide *;
      TailAscends(ids);
      OnlyInStep(these, others, ids);
      OnlyInOrder(these, others, ids[1..]);
      if ids[0] !in others {
        AscendNext(ids[0], IdsIn(OnlyIn(these, others, ids[1..])));
      } else {
        assert IdsIn(OnlyIn(these, others, ids)) == IdsIn(OnlyIn(these, others, ids[1..]));
      }
    } else {
      hide StringLess;
    }
  }

  lemma IdsInAscend(ds: seq<DatasetManifest>)
    requires IdsAscend(IdsIn(ds))
    ensures forall i, j :: 0 <= i < j < |ds| ==> StringLess(ds[i].id, ds[j].id)
  {
    hide StringLess;
    forall i, j | 0 <= i < j < |ds|
      ensures StringLess(ds[i].id, ds[j].id)
    {
      assert IdsIn(ds)[i] == ds[i].id && IdsIn(ds)[j] == ds[j].id;
    }
  }

  lemma {:induction false} ModifiedInOrder(uni: Unicode, base: Snapshot, target: Snapshot, ids: seq<string>)
    requires IdsAscend(ids) && forall id :: id in ids ==> id in DatasetMap(base.datasets)
    ensures var r := ModifiedDatasets(uni, base, target, ids);
      && (forall d :: d in r ==>
            d.datasetId in ids && d.datasetId in DatasetMap(target.datasets)
            && var t := DatasetMap(target.datasets)[d.datasetId];
               d.database == t.database && d.schema == t.schema && d.object_ == t.object_)
      && forall i, j :: 0 <= i < j < |r| ==> StringLess(r[i].datasetId, r[j].datasetId)
    decreases |ids|
  {
    hide StringLess, DatasetMap, DatasetChanged, Unmatched, Modified, DatasetColumns;
    if ids != [] {
      TailAscends(ids);
      ModifiedInOrder(uni, base, target, ids[1..]);
      var rest := ModifiedDatasets(uni, base, target, ids[1..]);
      forall j | 0 <= j < |rest|
        ensures StringLess(ids[0], rest[j].datasetId)
      {
        assert rest[j] in rest;
      }
    }
  }

  /** The report names both snapshots; it lists the datasets of each kind in ascending order
      of their ids, the modified ones under the object that the target names. */
  lemma ReportOrder(uni: Unicode, base: Snapshot, target: Snapshot)
    ensures var d := DiffOf(uni, base, target);
      && d.baseSnapshotId == base.id && d.targetSnapshotId == target.id
      && (forall i, j :: 0 <= i < j < |d.datasetsAdded| ==> StringLess(d.datasetsAdded[i].id, d.datasetsAdded[j].id))
      && (forall i, j :: 0 <= i < j < |d.datasetsRemoved| ==>
            StringLess(d.datasetsRemoved[i].id, d.datasetsRemoved[j].id))
      && (forall i, j :: 0 <= i < j < |d.datasetsModified| ==>
            StringLess(d.datasetsModified[i].datasetId, d.datasetsModified[j].datasetId))
      && (forall x :: x in d.datasetsModified ==>
            x.datasetId in DatasetMap(target.datasets)
            && var t := DatasetMap(target.datasets)[x.datasetId];
               x.database == t.database && x.schema == t.schema && x.object_ == t.object_)
  {
    hide *;
    var bm, tm := DatasetMap(base.datasets), DatasetMap(target.datasets);
    ListsAre(uni, base, target);
    IdsInOrder(bm);
    IdsInOrder(tm);
    OnlyInOrder(tm, bm, Ids(tm));
    OnlyInOrder(bm, tm, Ids(bm));
    IdsInAscend(OnlyIn(tm, bm, Ids(tm)));
    IdsInAscend(OnlyIn(bm, tm, Ids(bm)));
    ModifiedInOrder(uni, base, target, Ids(bm));
  }

  lemma ListsAre(uni: Unicode, base: Snapshot, target: Snapshot)
    ensures var d, bm, tm := DiffOf(uni, base, target), DatasetMap(base.datasets), DatasetMap(target.datasets);
      && d.baseSnapshotId == base.id && d.targetSnapshotId == target.id
      && d.datasetsAdded == OnlyIn(tm, bm, Ids(tm)) && d.datasetsRemoved == OnlyIn(bm, tm, Ids(bm))
      && d.datasetsModified == ModifiedDatasets(uni, base, target, Ids(bm))
  {
    hide OnlyIn, ModifiedDatasets, Ids, DatasetMap, CountAdded, CountRemoved, CountModified;
  }

  // ----- the columns of a dataset -----

  predicate OrdinalsAscend(columns: seq<ColumnEntry>) {
    forall i, j :: 0 <= i < j < |columns| ==> columns[i].ordinal <= columns[j].ordinal
  }

  lemma {:induction false} SortedAscend(columns: seq<ColumnEntry>)
    ensures OrdinalsAscend(SortByOrdinal(columns))
  {
    if columns != [] {
      SortedAscend(columns[1..]);
      InsertAscends(columns[0], SortByOrdinal(columns[1..]));
    }
  }

  lemma {:induction false} InsertAscends(c: ColumnEntry, sorted: seq<ColumnEntry>)
    requires OrdinalsAscend(sorted)
    ensures OrdinalsAscend(InsertByOrdinal(c, sorted))
    decreases |sorted|
  {
    if sorted != [] && c.ordinal > sorted[0].ordinal {
      assert OrdinalsAscend(sorted[1..]);
      InsertAscends(c, sorted[1..]);
      var rest := InsertByOrdinal(c, sorted[1..]);
      forall j | 0 <= j < |rest|
        ensures sorted[0].ordinal <= rest[j].ordinal
      {
        assert rest[j] in rest;
      }
    }
  }

  lemma {:induction false} UnmatchedAscend(uni: Unicode, these: seq<ColumnEntry>, others: seq<ColumnEntry>)
    requires OrdinalsAscend(these)
    ensures OrdinalsAscend(Unmatched(uni, these, others))
    decreases |these|
  {
    hide FindColumn;
    if these != [] {
      assert OrdinalsAscend(these[1..]);
      UnmatchedAscend(uni, these[1..], others);
      var rest := Unmatched(uni, these[1..], others);
      forall j | 0 <= j < |rest|
        ensures these[0].ordinal <= rest[j].ordinal
      {
        assert rest[j] in rest && rest[j] in these[1..];
      }
    }
  }

  /** Added and removed columns are listed in ascending ordinal order. */
  lemma ColumnOrder(uni: Unicode, base: Snapshot, target: Snapshot, id: string)
    requires id in DatasetMap(base.datasets) && id in DatasetMap(target.datasets)
    ensures var d := CommonDiff(uni, base, target, id);
      OrdinalsAscend(d.columnsAdded) && OrdinalsAscend(d.columnsRemoved)
  {
    SortedAscend(OfDataset(id, base.columns));
    SortedAscend(OfDataset(id, target.columns));
    hide OrdinalsAscend, Unmatched, Modified, SortByOrdinal, OfDataset, DatasetMap;
    UnmatchedAscend(uni, DatasetColumns(id, target.columns), DatasetColumns(id, base.columns));
    UnmatchedAscend(uni, DatasetColumns(id, base.columns), DatasetColumns(id, target.columns));
  }
}
