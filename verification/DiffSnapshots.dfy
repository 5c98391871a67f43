// The drift algorithm: nested loops that push to result lists and count, proved to
// build the report that the specification gives.
module DiffSnapshots {
  import opened Prelude
  import opened CatalogModel
  import opened Diff

  lemma PushOne<T>(done: seq<T>, step: seq<T>, rest: seq<T>, all: seq<T>)
    requires done + (step + rest) == all
    ensures (done + step) + rest == all
  {
    AppendAssociates(done, step, rest);
  }

  lemma Slide<T>(s: seq<T>, i: nat)
    requires i < |s|
    ensures s[i..][0] == s[i] && s[i..][1..] == s[i + 1..]
  {
  }

  lemma StartAndEnd<T>(s: seq<T>)
    ensures s[0..] == s && s[|s|..] == [] && [] + s == s && s + [] == s
  {
  }

  /** Push the columns of one side that no column of the other side names. */
  method CollectUnmatched(uni: Unicode, these: seq<ColumnEntry>, others: seq<ColumnEntry>) returns (r: seq<ColumnEntry>)
    ensures r == Unmatched(uni, these, others)
  {
    r := [];
    var i := 0;
    StartAndEnd(these);
    StartAndEnd(Unmatched(uni, these, others));
    while i < |these|
      invariant i <= |these|
      invariant r + Unmatched(uni, these[i..], others) == Unmatched(uni, these, others)
    {
      Slide(these, i);
      var found := FindColumn(uni, these[i].column, others);
      PushOne(r, if found.None? then [these[i]] else [], Unmatched(uni, these[i + 1..], others),
        Unmatched(uni, these, others));
      if found.None? {
        r := r + [these[i]];
      } else {
        assert r + [] == r;
      }
      i := i + 1;
    }
    StartAndEnd(r);
  }

  /** The field-by-field comparison, which raises the breaking flag as it goes. */
  method CompareFields(b: ColumnEntry, t: ColumnEntry) returns (d: ColumnDiff)
    ensures d == CompareColumn(b, t)
  {
    var isBreaking := false;
    if b.dtype != t.dtype {
      isBreaking := true;
    }
    if b.nullable != t.nullable {
      if b.nullable && !t.nullable {
        isBreaking := true;
      }
    }
    if b.precision != t.precision {
      if Narrowed(b.precision, t.precision) {
        isBreaking := true;
      }
    }
    if b.scale != t.scale {
      if Narrowed(b.scale, t.scale) {
        isBreaking := true;
      }
    }
    d := ColumnDiff(b.column, isBreaking, ChangeOf(b.dtype, t.dtype), ChangeOf(b.snowflakeType, t.snowflakeType),
      ChangeOf(b.nullable, t.nullable), ChangeOf(b.precision, t.precision), ChangeOf(b.scale, t.scale),
      ChangeOf(b.comment, t.comment));
  }

  /** Push the differences of the base columns from the first column of their name. */
  method CollectModified(uni: Unicode, bs: seq<ColumnEntry>, ts: seq<ColumnEntry>) returns (r: seq<ColumnDiff>)
    ensures r == Modified(uni, bs, ts)
  {
    r := [];
    var i := 0;
    StartAndEnd(bs);
    StartAndEnd(Modified(uni, bs, ts));
    while i < |bs|
      invariant i <= |bs|
      invariant r + Modified(uni, bs[i..], ts) == Modified(uni, bs, ts)
    {
      Slide(bs, i);
      PushOne(r, ModifiedOne(uni, bs[i], ts), Modified(uni, bs[i + 1..], ts), Modified(uni, bs, ts));
      var found := FindColumn(uni, bs[i].column, ts);
      StartAndEnd(r);
      if found.Some? {
        var d := CompareFields(bs[i], found.value);
        if ColumnChanged(d) {
          r := r + [d];
        }
      }
      i := i + 1;
    }
    StartAndEnd(r);
  }

  /** Whether some column difference is breaking. */
  method HasBreaking(ds: seq<ColumnDiff>) returns (breaking: bool)
    ensures breaking == AnyBreaking(ds)
  {
    breaking := false;
    var i := 0;
    while i < |ds|
      invariant i <= |ds|
      invariant breaking == AnyBreaking(ds[..i])
    {
      assert ds[..i + 1] == ds[..i] + [ds[i]];
      assert AnyBreaking(ds[..i + 1]) <==> AnyBreaking(ds[..i]) || ds[i].isBreaking by {
        assert ds[i] in ds[..i + 1];
        assert forall d :: d in ds[..i + 1] <==> d in ds[..i] || d == ds[i];
      }
      breaking := breaking || ds[i].isBreaking;
      i := i + 1;
    }
    assert ds[..i] == ds;
  }

  /** One common dataset. */
  method DiffDataset(uni: Unicode, id: string, b: DatasetManifest, t: DatasetManifest, bs: seq<ColumnEntry>, ts: seq<ColumnEntry>)
    returns (d: DatasetDiff)
    ensures d == CompareDataset(uni, id, b, t, bs, ts)
  {
    hide Unmatched, Modified, AnyBreaking;
    var added := CollectUnmatched(uni, ts, bs);
    var removed := CollectUnmatched(uni, bs, ts);
    var modified := CollectModified(uni, bs, ts);
    var breaking := HasBreaking(modified);
    d := DatasetDiff(id, t.database, t.schema, t.object_, removed != [] || breaking,
      ChangeOf(b.approxRowCount, t.approxRowCount), ChangeOf(b.bytes, t.bytes), ChangeOf(b.description, t.description),
      ChangeOf(b.rightsClass, t.rightsClass), added, removed, modified);
  }

  /** Collect the manifests by id; a later one takes the place of an earlier. */
  method CollectDatasets(datasets: seq<DatasetManifest>) returns (m: Datasets)
    ensures m == DatasetMap(datasets)
  {
    m := map[];
    var i := 0;
    assert datasets[..0] == [];
    while i < |datasets|
      invariant i <= |datasets|
      invariant m == DatasetMap(datasets[..i])
    {
      assert datasets[..i + 1][..i] == datasets[..i] && datasets[..i + 1][i] == datasets[i];
      m := m[datasets[i].id := datasets[i]];
      i := i + 1;
    }
    assert datasets[..i] == datasets;
  }

  lemma OnlyInStep(these: Datasets, others: Datasets, ids: seq<string>, i: nat)
    requires i < |ids| && forall id :: id in ids[i..] ==> id in these
    ensures ids[i] in these && forall id :: id in ids[i + 1..] ==> id in these
    ensures OnlyIn(these, others, ids[i..])
         == (if ids[i] !in others then [these[ids[i]]] else []) + OnlyIn(these, others, ids[i + 1..])
  {
    Slide(ids, i);
    assert ids[i] in ids[i..] && forall id :: id in ids[i + 1..] ==> id in ids[i..];
  }

  lemma OnlyInEmpty(these: Datasets, others: Datasets)
    ensures OnlyIn(these, others, []) == []
  {
  }

  /** Push the manifests whose id the other side has not. */
  method CollectOnlyIn(these: Datasets, others: Datasets) returns (r: seq<DatasetManifest>)
    ensures r == OnlyIn(these, others, Ids(these))
  {
    var ids := Ids(these);
    hide OnlyIn, Ids;
    r := [];
    var i := 0;
    StartAndEnd(ids);
    OnlyInEmpty(these, others);
    StartAndEnd(OnlyIn(these, others, ids));
    while i < |ids|
      invariant i <= |ids|
      invariant forall id :: id in ids[i..] ==> id in these
      invariant r + OnlyIn(these, others, ids[i..]) == OnlyIn(these, others, ids)
    {
      OnlyInStep(these, others, ids, i);
      PushOne(r, if ids[i] !in others then [these[ids[i]]] else [], OnlyIn(these, others, ids[i + 1..]),
        OnlyIn(these, others, ids));
      StartAndEnd(r);
      if ids[i] !in others {
        r := r + [these[ids[i]]];
      }
      i := i + 1;
    }
    StartAndEnd(r);
  }

  lemma CommonStep(uni: Unicode, base: Snapshot, target: Snapshot, ids: seq<string>, i: nat)
    requires i < |ids| && forall id :: id in ids[i..] ==> id in DatasetMap(base.datasets)
    ensures ids[i] in DatasetMap(base.datasets) && forall id :: id in ids[i + 1..] ==> id in DatasetMap(base.datasets)
    ensures ModifiedDatasets(uni, base, target, ids[i..])
         == (if ids[i] in DatasetMap(target.datasets) && DatasetChanged(CommonDiff(uni, base, target, ids[i]))
             then [CommonDiff(uni, base, target, ids[i])] else [])
            + ModifiedDatasets(uni, base, target, ids[i + 1..])
  {
    hide DatasetMap, DatasetChanged, CommonDiff;
    Slide(ids, i);
    assert ids[i] in ids[i..] && forall id :: id in ids[i + 1..] ==> id in ids[i..];
  }

  lemma CommonEmpty(uni: Unicode, base: Snapshot, target: Snapshot)
    ensures ModifiedDatasets(uni, base, target, []) == []
    ensures CountAdded([]) == 0 && CountRemoved([]) == 0 && CountModified([]) == 0
  {
  }

  /** What the counters hold for the differences reported so far. */
  datatype Tally = Tally(added: nat, removed: nat, modified: nat, breaking: bool)

  ghost function TallyOf(r: seq<DatasetDiff>): Tally {
    Tally(CountAdded(r), CountRemoved(r), CountModified(r), exists d :: d in r && d.isBreaking)
  }

  /** One common dataset's turn: what it pushes. */
  method DiffOne(uni: Unicode, base: Snapshot, target: Snapshot, bm: Datasets, tm: Datasets, id: string)
    returns (step: Option<DatasetDiff>)
    requires bm == DatasetMap(base.datasets) && tm == DatasetMap(target.datasets) && id in bm
    ensures step == if id in tm && DatasetChanged(CommonDiff(uni, base, target, id))
                    then Some(CommonDiff(uni, base, target, id)) else None
  {
    hide DatasetMap, DatasetColumns, CompareDataset, DatasetChanged;
    step := None;
    if id in tm {
      var d := DiffDataset(uni, id, bm[id], tm[id], DatasetColumns(id, base.columns), DatasetColumns(id, target.columns));
      if DatasetChanged(d) {
        step := Some(d);
      }
    }
  }

  /** The common datasets: those that changed are pushed, and their columns counted. */
  method CollectCommon(uni: Unicode, base: Snapshot, target: Snapshot, bm: Datasets, tm: Datasets)
    returns (r: seq<DatasetDiff>, tally: Tally)
    requires bm == DatasetMap(base.datasets) && tm == DatasetMap(target.datasets)
    ensures r == ModifiedDatasets(uni, base, target, Ids(bm))
    ensures tally == TallyOf(r)
  {
    var ids := Ids(bm);
    r, tally := [], Tally(0, 0, 0, false);
    assert tally == TallyOf(r);
    hide *;
    var i := 0;
    StartAndEnd(ids);
    CommonEmpty(uni, base, target);
    StartAndEnd(ModifiedDatasets(uni, base, target, ids));
    while i < |ids|
      invariant i <= |ids|
      invariant forall id :: id in ids[i..] ==> id in bm
      invariant r + ModifiedDatasets(uni, base, target, ids[i..]) == ModifiedDatasets(uni, base, target, ids)
      invariant tally == TallyOf(r)
    {
      CommonStep(uni, base, target, ids, i);
      var step := DiffOne(uni, base, target, bm, tm, ids[i]);
      ghost var rest, all := ModifiedDatasets(uni, base, target, ids[i + 1..]), ModifiedDatasets(uni, base, target, ids);
      match step {
        case None =>
          StartAndEnd(rest);
        case Some(d) =>
          PushOne(r, [d], rest, all);
          TallyPush(r, d);
          r := r + [d];
          tally := Tally(tally.added + |d.columnsAdded|, tally.removed + |d.columnsRemoved|,
            tally.modified + |d.columnsModified|, tally.breaking || d.isBreaking);
      }
      i := i + 1;
    }
    StartAndEnd(r);
  }

  lemma TallyPush(r: seq<DatasetDiff>, d: DatasetDiff)
    ensures TallyOf(r + [d])
         == Tally(TallyOf(r).added + |d.columnsAdded|, TallyOf(r).removed + |d.columnsRemoved|,
              TallyOf(r).modified + |d.columnsModified|, TallyOf(r).breaking || d.isBreaking)
  {
    CountPush(r, d);
    hide CountAdded, CountRemoved, CountModified;
  }

  lemma {:induction false} CountPush(r: seq<DatasetDiff>, d: DatasetDiff)
    ensures CountAdded(r + [d]) == CountAdded(r) + |d.columnsAdded|
    ensures CountRemoved(r + [d]) == CountRemoved(r) + |d.columnsRemoved|
    ensures CountModified(r + [d]) == CountModified(r) + |d.columnsModified|
    ensures (exists x :: x in r + [d] && x.isBreaking) <==> (exists x :: x in r && x.isBreaking) || d.isBreaking
  {
    if r == [] {
      assert r + [d] == [d] && [d][1..] == [];
    } else {
      assert (r + [d])[1..] == r[1..] + [d];
      CountPush(r[1..], d);
    }
    assert d in r + [d] && forall x :: x in r + [d] <==> x in r || x == d;
  }

  /** `diff_snapshots`. */
  method DiffCatalogs(uni: Unicode, base: Snapshot, target: Snapshot) returns (d: CatalogDiff)
    ensures d == DiffOf(uni, base, target)
  {
    hide DatasetMap, OnlyIn, ModifiedDatasets, CountAdded, CountRemoved, CountModified;
    var bm := CollectDatasets(base.datasets);
    var tm := CollectDatasets(target.datasets);
    var added := CollectOnlyIn(tm, bm);
    var removed := CollectOnlyIn(bm, tm);
    var modified, tally := CollectCommon(uni, base, target, bm, tm);
    var relationsAdded: set<Relation>, relationsRemoved: set<Relation> := {}, {};
    if base.relationsDiscovered && target.relationsDiscovered {
      relationsAdded, relationsRemoved := RelationSet(target) - RelationSet(base), RelationSet(base) - RelationSet(target);
    }
    var hasBreaking := removed != [] || tally.breaking;
    var identical := added == [] && removed == [] && modified == [] && relationsAdded == {} && relationsRemoved == {};
    d := CatalogDiff(base.id, target.id,
      Summary(|added|, |removed|, |modified|, tally.added, tally.removed, tally.modified,
        |relationsAdded|, |relationsRemoved|, hasBreaking, identical),
      added, removed, modified, relationsAdded, relationsRemoved);
  }
}
