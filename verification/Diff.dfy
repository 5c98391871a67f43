// Catalog drift: two snapshots compared dataset by dataset and column by column.
module Diff {
  import opened Prelude
  import opened CatalogModel
  import Keys

  datatype ObjectRef = ObjectRef(database: string, schema: string, name: string)

  datatype Relation =
    | ViewDependsOn(view: ObjectRef, source: ObjectRef, sourceType: Option<string>)
    | ForeignKey(from: ObjectRef, to: ObjectRef, constraint: string)
    | UsesStage(external: ObjectRef, stage: ObjectRef)
    | UsesFileFormat(external: ObjectRef, fileFormat: ObjectRef)
    | StageUsesFileFormat(stage: ObjectRef, fileFormat: ObjectRef)

  datatype Snapshot = Snapshot(
    id: string, datasets: seq<DatasetManifest>, columns: seq<ColumnEntry>, relationsDiscovered: bool, relations: seq<Relation>)

  datatype Change<T> = Change(old_: T, new_: T)

  datatype ColumnDiff = ColumnDiff(
    column: string,
    isBreaking: bool,
    dtype: Option<Change<DtypeClass>>,
    snowflakeType: Option<Change<string>>,
    nullable: Option<Change<bool>>,
    precision: Option<Change<Option<nat>>>,
    scale: Option<Change<Option<nat>>>,
    comment: Option<Change<Option<string>>>)

  datatype DatasetDiff = DatasetDiff(
    datasetId: string,
    database: string,
    schema: string,
    object_: string,
    isBreaking: bool,
    approxRowCount: Option<Change<Option<nat>>>,
    bytes: Option<Change<Option<nat>>>,
    description: Option<Change<Option<string>>>,
    rightsClass: Option<Change<RightsClass>>,
    columnsAdded: seq<ColumnEntry>,
    columnsRemoved: seq<ColumnEntry>,
    columnsModified: seq<ColumnDiff>)

  datatype Summary = Summary(
    datasetsAdded: nat, datasetsRemoved: nat, datasetsModified: nat,
    columnsAdded: nat, columnsRemoved: nat, columnsModified: nat,
    relationsAdded: nat, relationsRemoved: nat,
    hasBreakingChanges: bool, isIdentical: bool)

  /** The drift report. The relation differences are kept as sets: their order is the
      relations' own. */
  datatype CatalogDiff = CatalogDiff(
    baseSnapshotId: string,
    targetSnapshotId: string,
    summary: Summary,
    datasetsAdded: seq<DatasetManifest>,
    datasetsRemoved: seq<DatasetManifest>,
    datasetsModified: seq<DatasetDiff>,
    relationsAdded: set<Relation>,
    relationsRemoved: set<Relation>)

  // ----- columns -----

  function ChangeOf<T(==)>(old_: T, new_: T): Option<Change<T>> {
    if old_ != new_ then Some(Change(old_, new_)) else None
  }

  predicate Narrowed(old_: Option<nat>, new_: Option<nat>) {
    old_.Some? && new_.Some? && new_.value < old_.value
  }

  function CompareColumn(b: ColumnEntry, t: ColumnEntry): ColumnDiff {
    ColumnDiff(
      b.column,
      b.dtype != t.dtype || (b.nullable && !t.nullable) || Narrowed(b.precision, t.precision) || Narrowed(b.scale, t.scale),
      ChangeOf(b.dtype, t.dtype),
      ChangeOf(b.snowflakeType, t.snowflakeType),
      ChangeOf(b.nullable, t.nullable),
      ChangeOf(b.precision, t.precision),
      ChangeOf(b.scale, t.scale),
      ChangeOf(b.comment, t.comment))
  }

  predicate ColumnChanged(d: ColumnDiff) {
    d.dtype.Some? || d.snowflakeType.Some? || d.nullable.Some? || d.precision.Some? || d.scale.Some? || d.comment.Some?
  }

  /** The columns of one side that the other has under no spelling. */
  function Unmatched(uni: Unicode, these: seq<ColumnEntry>, others: seq<ColumnEntry>): (r: seq<ColumnEntry>)
    ensures forall x :: x in r <==> x in these && FindColumn(uni, x.column, others).None?
  {
    if these == [] then []
    else
      (if FindColumn(uni, these[0].column, others).None? then [these[0]] else []) + Unmatched(uni, these[1..], others)
  }

  function ModifiedOne(uni: Unicode, b: ColumnEntry, ts: seq<ColumnEntry>): seq<ColumnDiff> {
    match FindColumn(uni, b.column, ts)
    case None => []
    case Some(t) => if ColumnChanged(CompareColumn(b, t)) then [CompareColumn(b, t)] else []
  }

  function Modified(uni: Unicode, bs: seq<ColumnEntry>, ts: seq<ColumnEntry>): seq<ColumnDiff> {
    if bs == [] then [] else ModifiedOne(uni, bs[0], ts) + Modified(uni, bs[1..], ts)
  }

  // ----- datasets -----

  predicate AnyBreaking(ds: seq<ColumnDiff>) {
    exists d :: d in ds && d.isBreaking
  }

  function CompareDataset(uni: Unicode, id: string, b: DatasetManifest, t: DatasetManifest, bs: seq<ColumnEntry>, ts: seq<ColumnEntry>): DatasetDiff {
    var added, removed, modified := Unmatched(uni, ts, bs), Unmatched(uni, bs, ts), Modified(uni, bs, ts);
    DatasetDiff(id, t.database, t.schema, t.object_,
      removed != [] || AnyBreaking(modified),
      ChangeOf(b.approxRowCount, t.approxRowCount),
      ChangeOf(b.bytes, t.bytes),
      ChangeOf(b.description, t.description),
      ChangeOf(b.rightsClass, t.rightsClass),
      added, removed, modified)
  }

  predicate DatasetChanged(d: DatasetDiff) {
    || d.columnsAdded != [] || d.columnsRemoved != [] || d.columnsModified != []
    || d.approxRowCount.Some? || d.bytes.Some? || d.description.Some? || d.rightsClass.Some?
  }

  type Datasets = map<string, DatasetManifest>

  /** Manifests by id; of two with one id the later stays. */
  function DatasetMap(datasets: seq<DatasetManifest>): (m: Datasets)
    ensures forall id :: id in m ==> m[id].id == id && m[id] in datasets
    ensures forall d :: d in datasets ==> d.id in m
  {
    if datasets == [] then map[]
    else
      var last := datasets[|datasets| - 1];
      DatasetMap(datasets[..|datasets| - 1])[last.id := last]
  }

  /** A map's keys in order. */
  function Ids(m: Datasets): (ids: seq<string>)
    ensures |ids| == |m|
    ensures forall id :: id in ids <==> id in m
    ensures forall i, j :: 0 <= i < j < |ids| ==> ids[i] != ids[j]
  {
    var keys := set id | id in m :: Keys.Key(id, 0);
    var sorted := Keys.SortedKeys(keys);
    KeyCount(m.Keys);
    var ids := seq(|sorted|, i requires 0 <= i < |sorted| => sorted[i].id);
    IdsOfKeys(m, keys, sorted, ids);
    ids
  }

  lemma {:induction false} KeyCount(ids: set<string>)
    ensures |set id | id in ids :: Keys.Key(id, 0)| == |ids|
    decreases ids
  {
    if ids != {} {
      var x :| x in ids;
      KeyCount(ids - {x});
      assert (set id | id in ids :: Keys.Key(id, 0))
        == (set id | id in ids - {x} :: Keys.Key(id, 0)) + {Keys.Key(x, 0)};
    }
  }

  lemma IdsOfKeys(m: Datasets, keys: set<Keys.Key>, sorted: seq<Keys.Key>, ids: seq<string>)
    requires keys == set id | id in m :: Keys.Key(id, 0)
    requires (forall k :: k in sorted <==> k in keys) && Keys.Ascending(sorted)
    requires |ids| == |sorted| && forall i :: 0 <= i < |ids| ==> ids[i] == sorted[i].id
    ensures forall id :: id in ids <==> id in m
    ensures forall i, j :: 0 <= i < j < |ids| ==> ids[i] != ids[j]
  {
    forall id
      ensures id in ids <==> id in m
    {
      if id in m {
        assert Keys.Key(id, 0) in sorted;
        var i :| 0 <= i < |sorted| && sorted[i] == Keys.Key(id, 0);
        assert ids[i] == id;
      }
      if id in ids {
        var i :| 0 <= i < |ids| && ids[i] == id;
        assert sorted[i] in sorted;
      }
    }
    forall i, j | 0 <= i < j < |ids|
      ensures ids[i] != ids[j]
    {
      assert sorted[i] in sorted && sorted[j] in sorted;
      Keys.KeyLessTotal(sorted[i], sorted[j]);
    }
  }

  /** The manifests of the ids that another map has not. */
  function OnlyIn(these: Datasets, others: Datasets, ids: seq<string>): (r: seq<DatasetManifest>)
    requires forall id :: id in ids ==> id in these
    ensures forall d :: d in r <==> exists id :: id in ids && id !in others && d == these[id]
  {
    if ids == [] then []
    else (if ids[0] !in others then [these[ids[0]]] else []) + OnlyIn(these, others, ids[1..])
  }

  function CommonDiff(uni: Unicode, base: Snapshot, target: Snapshot, id: string): DatasetDiff
    requires id in DatasetMap(base.datasets) && id in DatasetMap(target.datasets)
  {
    CompareDataset(uni, id, DatasetMap(base.datasets)[id], DatasetMap(target.datasets)[id],
      DatasetColumns(id, base.columns), DatasetColumns(id, target.columns))
  }

  /** The differences of the common datasets among some ids of the base. */
  function ModifiedDatasets(uni: Unicode, base: Snapshot, target: Snapshot, ids: seq<string>): seq<DatasetDiff>
    requires forall id :: id in ids ==> id in DatasetMap(base.datasets)
  {
    if ids == [] then []
    else
      (if ids[0] in DatasetMap(target.datasets) && DatasetChanged(CommonDiff(uni, base, target, ids[0]))
       then [CommonDiff(uni, base, target, ids[0])] else [])
      + ModifiedDatasets(uni, base, target, ids[1..])
  }

  // ----- the report -----

  function CountAdded(ds: seq<DatasetDiff>): nat {
    if ds == [] then 0 else |ds[0].columnsAdded| + CountAdded(ds[1..])
  }

  function CountRemoved(ds: seq<DatasetDiff>): nat {
    if ds == [] then 0 else |ds[0].columnsRemoved| + CountRemoved(ds[1..])
  }

  function CountModified(ds: seq<DatasetDiff>): nat {
    if ds == [] then 0 else |ds[0].columnsModified| + CountModified(ds[1..])
  }

  function RelationSet(s: Snapshot): set<Relation> {
    set r | r in s.relations
  }

  /** Only two snapshots that both looked for relations are compared. */
  predicate ComparesRelations(base: Snapshot, target: Snapshot) {
    base.relationsDiscovered && target.relationsDiscovered
  }

  function DiffOf(uni: Unicode, base: Snapshot, target: Snapshot): CatalogDiff {
    var bm, tm := DatasetMap(base.datasets), DatasetMap(target.datasets);
    var added, removed := OnlyIn(tm, bm, Ids(tm)), OnlyIn(bm, tm, Ids(bm));
    var modified := ModifiedDatasets(uni, base, target, Ids(bm));
    var relationsAdded := if ComparesRelations(base, target) then RelationSet(target) - RelationSet(base) else {};
    var relationsRemoved := if ComparesRelations(base, target) then RelationSet(base) - RelationSet(target) else {};
    CatalogDiff(base.id, target.id,
      Summary(|added|, |removed|, |modified|, CountAdded(modified), CountRemoved(modified), CountModified(modified),
        |relationsAdded|, |relationsRemoved|,
        removed != [] || exists d :: d in modified && d.isBreaking,
        added == [] && removed == [] && modified == [] && relationsAdded == {} && relationsRemoved == {}),
      added, removed, modified, relationsAdded, relationsRemoved)
  }
}
