// What the drift report means: it is exact on the tracked view of a snapshot, it
// patches, it reverses, and its breaking flag composes but for a forgotten precision.
module DiffTheorems {
  import opened Prelude
  import opened CatalogModel
  import opened Diff

  // ----- the tracked view of a snapshot -----

  datatype TrackedColumn = TrackedColumn(
    dtype: DtypeClass, snowflakeType: string, nullable: bool, precision: Option<nat>, scale: Option<nat>,
    comment: Option<string>)

  function Tracked(c: ColumnEntry): TrackedColumn {
    TrackedColumn(c.dtype, c.snowflakeType, c.nullable, c.precision, c.scale, c.comment)
  }

  type Columns = map<string, TrackedColumn>

  /** Columns by normalised name; of two with one name the first counts. */
  function ColumnView(uni: Unicode, cs: seq<ColumnEntry>): Columns {
    if cs == [] then map[]
    else ColumnView(uni, cs[1..])[Normalize(uni, cs[0].column) := Tracked(cs[0])]
  }

  datatype DatasetView = DatasetView(
    approxRowCount: Option<nat>, bytes: Option<nat>, description: Option<string>, rightsClass: RightsClass,
    columns: Columns)

  type View = map<string, DatasetView>

  function ViewOfDataset(uni: Unicode, d: DatasetManifest, cs: seq<ColumnEntry>): DatasetView {
    DatasetView(d.approxRowCount, d.bytes, d.description, d.rightsClass, ColumnView(uni, cs))
  }

  function ViewOf(uni: Unicode, s: Snapshot): View {
    map id | id in DatasetMap(s.datasets) ::
      ViewOfDataset(uni, DatasetMap(s.datasets)[id], DatasetColumns(id, s.columns))
  }

  /** Columns whose names are one up to spelling agree on everything tracked. Distinct
      normalised names give this. */
  predicate Consistent(uni: Unicode, cs: seq<ColumnEntry>) {
    forall x, y :: x in cs && y in cs && SameIdentifier(uni, x.column, y.column) ==> Tracked(x) == Tracked(y)
  }

  predicate ConsistentSnapshot(uni: Unicode, s: Snapshot) {
    forall id :: id in DatasetMap(s.datasets) ==> Consistent(uni, DatasetColumns(id, s.columns))
  }

  // ----- columns: the lookup and the view -----

  lemma {:induction false} FindIsView(uni: Unicode, name: string, cs: seq<ColumnEntry>)
    ensures FindColumn(uni, name, cs).Some? <==> Normalize(uni, name) in ColumnView(uni, cs)
    ensures FindColumn(uni, name, cs).Some? ==>
              ColumnView(uni, cs)[Normalize(uni, name)] == Tracked(FindColumn(uni, name, cs).value)
  {
    if cs != [] {
      FindIsView(uni, name, cs[1..]);
    }
  }

  lemma {:induction false} ViewKeys(uni: Unicode, cs: seq<ColumnEntry>, n: string)
    ensures n in ColumnView(uni, cs) <==> exists x :: x in cs && Normalize(uni, x.column) == n
    ensures n in ColumnView(uni, cs) ==>
              exists x :: x in cs && Normalize(uni, x.column) == n && Tracked(x) == ColumnView(uni, cs)[n]
  {
    if cs != [] {
      ViewKeys(uni, cs[1..], n);
      assert cs[0] in cs && forall x :: x in cs[1..] ==> x in cs;
      if n in ColumnView(uni, cs) && Normalize(uni, cs[0].column) != n {
        var x :| x in cs[1..] && Normalize(uni, x.column) == n && Tracked(x) == ColumnView(uni, cs[1..])[n];
        assert x in cs;
      }
      assert forall x :: x in cs ==> x == cs[0] || x in cs[1..];
    }
  }

  lemma ConsistentView(uni: Unicode, cs: seq<ColumnEntry>, x: ColumnEntry)
    requires Consistent(uni, cs) && x in cs
    ensures Normalize(uni, x.column) in ColumnView(uni, cs)
    ensures ColumnView(uni, cs)[Normalize(uni, x.column)] == Tracked(x)
  {
    ViewKeys(uni, cs, Normalize(uni, x.column));
    var y :| y in cs && Normalize(uni, y.column) == Normalize(uni, x.column)
             && Tracked(y) == ColumnView(uni, cs)[Normalize(uni, x.column)];
    assert SameIdentifier(uni, x.column, y.column);
  }

  /** The unmatched columns are the names that only this side has. */
  lemma UnmatchedIsView(uni: Unicode, these: seq<ColumnEntry>, others: seq<ColumnEntry>)
    ensures Unmatched(uni, these, others) == [] <==> ColumnView(uni, these).Keys <= ColumnView(uni, others).Keys
  {
    var view := ColumnView(uni, others);
    if Unmatched(uni, these, others) == [] {
      forall n | n in ColumnView(uni, these)
        ensures n in view
      {
        ViewKeys(uni, these, n);
        var x :| x in these && Normalize(uni, x.column) == n;
        assert x !in Unmatched(uni, these, others);
        FindIsView(uni, x.column, others);
      }
    } else {
      var x := Unmatched(uni, these, others)[0];
      assert x in Unmatched(uni, these, others);
      ViewKeys(uni, these, Normalize(uni, x.column));
      FindIsView(uni, x.column, others);
    }
  }

  lemma UnchangedIsTracked(b: ColumnEntry, t: ColumnEntry)
    ensures !ColumnChanged(CompareColumn(b, t)) <==> Tracked(b) == Tracked(t)
  {
  }

  lemma {:induction false} ModifiedMembers(uni: Unicode, bs: seq<ColumnEntry>, ts: seq<ColumnEntry>)
    ensures forall d :: d in Modified(uni, bs, ts) <==> exists b :: b in bs && d in ModifiedOne(uni, b, ts)
  {
    if bs != [] {
      ModifiedMembers(uni, bs[1..], ts);
      forall d
        ensures d in Modified(uni, bs, ts) <==> exists b :: b in bs && d in ModifiedOne(uni, b, ts)
      {
        if d in ModifiedOne(uni, bs[0], ts) {
          assert bs[0] in bs;
        }
        if d in Modified(uni, bs[1..], ts) {
          var b :| b in bs[1..] && d in ModifiedOne(uni, b, ts);
          assert b in bs;
        }
        if b :| b in bs && d in ModifiedOne(uni, b, ts) {
          assert b == bs[0] || b in bs[1..];
        }
      }
    }
  }

  /** One column's differences, seen from the views. */
  lemma ModifiedOneIsView(uni: Unicode, bs: seq<ColumnEntry>, ts: seq<ColumnEntry>, b: ColumnEntry)
    requires Consistent(uni, bs) && b in bs
    ensures Normalize(uni, b.column) in ColumnView(uni, bs)
    ensures ModifiedOne(uni, b, ts) == []
       <==> (Normalize(uni, b.column) in ColumnView(uni, ts) ==>
              ColumnView(uni, bs)[Normalize(uni, b.column)] == ColumnView(uni, ts)[Normalize(uni, b.column)])
  {
    ConsistentView(uni, bs, b);
    FindIsView(uni, b.column, ts);
    var found := FindColumn(uni, b.column, ts);
    if found.Some? {
      UnchangedIsTracked(b, found.value);
    }
    hide Normalize, ColumnView, CompareColumn, ColumnChanged, Consistent, FindColumn, Tracked;
  }

  /** The modified columns are the common names whose tracked fields differ. */
  lemma ModifiedIsView(uni: Unicode, bs: seq<ColumnEntry>, ts: seq<ColumnEntry>)
    requires Consistent(uni, bs)
    ensures Modified(uni, bs, ts) == []
       <==> forall n :: n in ColumnView(uni, bs) && n in ColumnView(uni, ts) ==>
              ColumnView(uni, bs)[n] == ColumnView(uni, ts)[n]
  {
    var v, w := ColumnView(uni, bs), ColumnView(uni, ts);
    ModifiedMembers(uni, bs, ts);
    EmptyIsMemberless(Modified(uni, bs, ts));
    hide Normalize, ColumnView, Consistent, ModifiedOne, Modified;
    if Modified(uni, bs, ts) == [] {
      forall n | n in v && n in w
        ensures v[n] == w[n]
      {
        ViewKeys(uni, bs, n);
        var b :| b in bs && Normalize(uni, b.column) == n && Tracked(b) == v[n];
        ModifiedOneIsView(uni, bs, ts, b);
        assert forall d :: d in ModifiedOne(uni, b, ts) ==> d in Modified(uni, bs, ts);
        EmptyIsMemberless(ModifiedOne(uni, b, ts));
      }
    } else {
      var d :| d in Modified(uni, bs, ts);
      var b :| b in bs && d in ModifiedOne(uni, b, ts);
      ModifiedOneIsView(uni, bs, ts, b);
      EmptyIsMemberless(ModifiedOne(uni, b, ts));
    }
  }

  lemma UnmodifiedMember(uni: Unicode, bs: seq<ColumnEntry>, ts: seq<ColumnEntry>, b: ColumnEntry)
    requires Unmatched(uni, bs, ts) == [] && Modified(uni, bs, ts) == [] && b in bs
    ensures Normalize(uni, b.column) in ColumnView(uni, ts)
    ensures ColumnView(uni, ts)[Normalize(uni, b.column)] == Tracked(b)
  {
    assert b !in Unmatched(uni, bs, ts);
    FindIsView(uni, b.column, ts);
    var t := FindColumn(uni, b.column, ts).value;
    UnchangedIsTracked(b, t);
    ModifiedMembers(uni, bs, ts);
    hide Modified, Unmatched, CompareColumn, ColumnChanged, Tracked, Normalize, ColumnView, FindColumn;
    assert ColumnChanged(CompareColumn(b, t)) ==> CompareColumn(b, t) in ModifiedOne(uni, b, ts);
  }

  /** Only columns that agree can show no difference. */
  lemma UnmodifiedIsConsistent(uni: Unicode, bs: seq<ColumnEntry>, ts: seq<ColumnEntry>)
    requires Unmatched(uni, bs, ts) == [] && Modified(uni, bs, ts) == []
    ensures Consistent(uni, bs)
  {
    hide Unmatched, Modified, ColumnView, Tracked, Normalize;
    forall x, y | x in bs && y in bs && SameIdentifier(uni, x.column, y.column)
      ensures Tracked(x) == Tracked(y)
    {
      UnmodifiedMember(uni, bs, ts, x);
      UnmodifiedMember(uni, bs, ts, y);
    }
  }

  /** Two sides show no difference exactly when their views are equal and the base's columns
      of one name agree. */
  lemma ColumnsExact(uni: Unicode, bs: seq<ColumnEntry>, ts: seq<ColumnEntry>)
    ensures Unmatched(uni, ts, bs) == [] && Unmatched(uni, bs, ts) == [] && Modified(uni, bs, ts) == []
       <==> ColumnView(uni, bs) == ColumnView(uni, ts) && Consistent(uni, bs)
  {
    UnmatchedIsView(uni, bs, ts);
    UnmatchedIsView(uni, ts, bs);
    if Unmatched(uni, bs, ts) == [] && Modified(uni, bs, ts) == [] {
      UnmodifiedIsConsistent(uni, bs, ts);
    }
    if Consistent(uni, bs) {
      ModifiedIsView(uni, bs, ts);
    }
    hide Consistent, Unmatched, Modified;
    if ColumnView(uni, bs).Keys == ColumnView(uni, ts).Keys {
      assert forall n :: n in ColumnView(uni, bs) <==> n in ColumnView(uni, ts);
    }
  }

  lemma DatasetExact(uni: Unicode, id: string, b: DatasetManifest, t: DatasetManifest, bs: seq<ColumnEntry>, ts: seq<ColumnEntry>)
    ensures !DatasetChanged(CompareDataset(uni, id, b, t, bs, ts))
       <==> ViewOfDataset(uni, b, bs) == ViewOfDataset(uni, t, ts) && Consistent(uni, bs)
  {
    ColumnsExact(uni, bs, ts);
    hide Unmatched, Modified, ColumnView, Consistent;
  }

  // ----- exactness -----

  lemma {:induction false} ModifiedDatasetsMembers(uni: Unicode, base: Snapshot, target: Snapshot, ids: seq<string>)
    requires forall id :: id in ids ==> id in DatasetMap(base.datasets)
    ensures forall d :: d in ModifiedDatasets(uni, base, target, ids) <==>
              exists id :: id in ids && id in DatasetMap(target.datasets)
                           && d == CommonDiff(uni, base, target, id) && DatasetChanged(d)
  {
    hide DatasetMap, CommonDiff, DatasetChanged;
    if ids != [] {
      ModifiedDatasetsMembers(uni, base, target, ids[1..]);
      var all, rest := ModifiedDatasets(uni, base, target, ids), ModifiedDatasets(uni, base, target, ids[1..]);
      forall d
        ensures d in all <==> exists id :: id in ids && id in DatasetMap(target.datasets)
                                           && d == CommonDiff(uni, base, target, id) && DatasetChanged(d)
      {
        if d in all {
          if d in rest {
            var id :| id in ids[1..] && id in DatasetMap(target.datasets)
                      && d == CommonDiff(uni, base, target, id) && DatasetChanged(d);
            assert id in ids;
          } else {
            assert ids[0] in ids;
          }
        }
        if id :| id in ids && id in DatasetMap(target.datasets)
                 && d == CommonDiff(uni, base, target, id) && DatasetChanged(d) {
          assert id == ids[0] || id in ids[1..];
        }
      }
    }
  }

  /** The differing common datasets, whatever the order. */
  lemma ModifiedOf(uni: Unicode, base: Snapshot, target: Snapshot)
    ensures forall d :: d in DiffOf(uni, base, target).datasetsModified <==>
              exists id :: id in DatasetMap(base.datasets) && id in DatasetMap(target.datasets)
                           && d == CommonDiff(uni, base, target, id) && DatasetChanged(d)
  {
    ModifiedDatasetsMembers(uni, base, target, Ids(DatasetMap(base.datasets)));
    hide DatasetMap, CommonDiff, DatasetChanged, ModifiedDatasets;
  }

  lemma EmptyIsMemberless<T>(s: seq<T>)
    ensures s == [] <==> forall x :: x !in s
  {
    if s != [] {
      assert s[0] in s;
    }
  }

  lemma OnlyInOf(these: Datasets, others: Datasets)
    requires forall id :: id in these ==> these[id].id == id
    ensures OnlyIn(these, others, Ids(these)) == [] <==> these.Keys <= others.Keys
  {
    var r := OnlyIn(these, others, Ids(these));
    EmptyIsMemberless(r);
    if r == [] {
      forall id | id in these
        ensures id in others
      {
        assert these[id] !in r;
      }
    }
  }

  predicate RelationsAgree(base: Snapshot, target: Snapshot) {
    ComparesRelations(base, target) ==> RelationSet(base) == RelationSet(target)
  }

  lemma ViewAt(uni: Unicode, s: Snapshot, id: string)
    ensures id in ViewOf(uni, s) <==> id in DatasetMap(s.datasets)
    ensures id in ViewOf(uni, s) ==>
              ViewOf(uni, s)[id] == ViewOfDataset(uni, DatasetMap(s.datasets)[id], DatasetColumns(id, s.columns))
  {
    hide DatasetMap, ViewOfDataset, DatasetColumns;
  }

  /** Unchanged common datasets have equal views, and base columns that agree. */
  lemma CommonExact(uni: Unicode, base: Snapshot, target: Snapshot, id: string)
    requires id in DatasetMap(base.datasets) && id in DatasetMap(target.datasets)
    ensures id in ViewOf(uni, base) && id in ViewOf(uni, target)
    ensures !DatasetChanged(CommonDiff(uni, base, target, id))
       <==> ViewOf(uni, base)[id] == ViewOf(uni, target)[id] && Consistent(uni, DatasetColumns(id, base.columns))
  {
    hide DatasetMap, ViewOfDataset, DatasetColumns, ViewOf, DatasetChanged, CompareDataset, Consistent;
    ViewAt(uni, base, id);
    ViewAt(uni, target, id);
    DatasetExact(uni, id, DatasetMap(base.datasets)[id], DatasetMap(target.datasets)[id],
      DatasetColumns(id, base.columns), DatasetColumns(id, target.columns));
  }

  /** "Identical" is five empty lists. */
  lemma IdenticalIs(uni: Unicode, base: Snapshot, target: Snapshot)
    ensures var bm, tm, d := DatasetMap(base.datasets), DatasetMap(target.datasets), DiffOf(uni, base, target);
      d.summary.isIdentical
      <==> OnlyIn(tm, bm, Ids(tm)) == [] && OnlyIn(bm, tm, Ids(bm)) == [] && d.datasetsModified == []
           && RelationsAgree(base, target)
  {
    hide OnlyIn, ModifiedDatasets, DatasetMap, CountAdded, CountModified, CountRemoved;
    var a, b := RelationSet(base), RelationSet(target);
    assert a - b == {} && b - a == {} <==> a == b;
  }

  /** The report says "identical" exactly when the tracked views are equal, the relations,
      where both sides looked for them, are the same, and the base's columns of one name
      agree. */
  lemma IdenticalIsExact(uni: Unicode, base: Snapshot, target: Snapshot)
    ensures DiffOf(uni, base, target).summary.isIdentical
       <==> ViewOf(uni, base) == ViewOf(uni, target) && RelationsAgree(base, target) && ConsistentSnapshot(uni, base)
  {
    var bm, tm := DatasetMap(base.datasets), DatasetMap(target.datasets);
    var modified := DiffOf(uni, base, target).datasetsModified;
    OnlyInOf(bm, tm);
    OnlyInOf(tm, bm);
    ModifiedOf(uni, base, target);
    IdenticalIs(uni, base, target);
    hide DatasetMap, CommonDiff, DatasetChanged, ViewOf, DiffOf, OnlyIn, RelationsAgree, Consistent, DatasetColumns;
    ViewKeysAre(uni, base);
    ViewKeysAre(uni, target);
    if bm.Keys == tm.Keys {
      forall id | id in bm
        ensures !DatasetChanged(CommonDiff(uni, base, target, id))
           <==> ViewOf(uni, base)[id] == ViewOf(uni, target)[id] && Consistent(uni, DatasetColumns(id, base.columns))
      {
        CommonExact(uni, base, target, id);
      }
      CommonEqual(uni, base, target, modified);
    }
  }

  lemma ViewKeysAre(uni: Unicode, s: Snapshot)
    ensures ViewOf(uni, s).Keys == DatasetMap(s.datasets).Keys
  {
    hide DatasetMap, ViewOfDataset, DatasetColumns;
  }

  lemma CommonEqual(uni: Unicode, base: Snapshot, target: Snapshot, modified: seq<DatasetDiff>)
    requires DatasetMap(base.datasets).Keys == DatasetMap(target.datasets).Keys
    requires ViewOf(uni, base).Keys == DatasetMap(base.datasets).Keys == ViewOf(uni, target).Keys
    requires forall id :: id in DatasetMap(base.datasets) ==>
      (!DatasetChanged(CommonDiff(uni, base, target, id))
       <==> ViewOf(uni, base)[id] == ViewOf(uni, target)[id] && Consistent(uni, DatasetColumns(id, base.columns)))
    requires forall d :: d in modified <==>
      exists id :: id in DatasetMap(base.datasets) && id in DatasetMap(target.datasets)
                   && d == CommonDiff(uni, base, target, id) && DatasetChanged(d)
    ensures modified == [] <==> ViewOf(uni, base) == ViewOf(uni, target) && ConsistentSnapshot(uni, base)
  {
    hide DatasetMap, CommonDiff, DatasetChanged, ViewOf, Consistent, DatasetColumns;
    EmptyIsMemberless(modified);
    if modified == [] {
      forall id | id in ViewOf(uni, base)
        ensures ViewOf(uni, base)[id] == ViewOf(uni, target)[id] && Consistent(uni, DatasetColumns(id, base.columns))
      {
        assert CommonDiff(uni, base, target, id) !in modified;
      }
    }
  }

  /** A snapshot compared with itself is reported identical exactly when its columns of one
      name agree. */
  lemma SelfDiffIsIdentical(uni: Unicode, s: Snapshot)
    ensures DiffOf(uni, s, s).summary.isIdentical <==> ConsistentSnapshot(uni, s)
  {
    hide *;
    IdenticalIsExact(uni, s, s);
    AgreesWithItself(s);
  }

  lemma AgreesWithItself(s: Snapshot)
    ensures RelationsAgree(s, s)
  {
  }

  // ----- patching -----

  function NewOr<T>(change: Option<Change<T>>, old_: T): T {
    if change.Some? then change.value.new_ else old_
  }

  function PatchColumn(v: TrackedColumn, d: ColumnDiff): TrackedColumn {
    TrackedColumn(NewOr(d.dtype, v.dtype), NewOr(d.snowflakeType, v.snowflakeType), NewOr(d.nullable, v.nullable),
      NewOr(d.precision, v.precision), NewOr(d.scale, v.scale), NewOr(d.comment, v.comment))
  }

  function PatchModified(uni: Unicode, v: Columns, ds: seq<ColumnDiff>): Columns
    decreases |ds|
  {
    if ds == [] then v
    else
      var n := Normalize(uni, ds[0].column);
      PatchModified(uni, if n in v then v[n := PatchColumn(v[n], ds[0])] else v, ds[1..])
  }

  function NamesOf(uni: Unicode, cs: seq<ColumnEntry>): set<string> {
    set x | x in cs :: Normalize(uni, x.column)
  }

  /** Drop the removed columns, change the modified ones, add the added ones. */
  function PatchColumns(uni: Unicode, v: Columns, removed: seq<ColumnEntry>, modified: seq<ColumnDiff>, added: seq<ColumnEntry>): Columns {
    PatchModified(uni, v - NamesOf(uni, removed), modified) + ColumnView(uni, added)
  }

  function PatchDataset(uni: Unicode, v: DatasetView, d: DatasetDiff): DatasetView {
    DatasetView(NewOr(d.approxRowCount, v.approxRowCount), NewOr(d.bytes, v.bytes), NewOr(d.description, v.description),
      NewOr(d.rightsClass, v.rightsClass),
      PatchColumns(uni, v.columns, d.columnsRemoved, d.columnsModified, d.columnsAdded))
  }

  /** The added columns' view is the target's, on the names the base has not. */
  lemma {:induction false} AddedView(uni: Unicode, ts: seq<ColumnEntry>, bs: seq<ColumnEntry>, n: string)
    ensures n in ColumnView(uni, Unmatched(uni, ts, bs)) <==> n in ColumnView(uni, ts) && n !in ColumnView(uni, bs)
    ensures n in ColumnView(uni, Unmatched(uni, ts, bs)) ==>
              ColumnView(uni, Unmatched(uni, ts, bs))[n] == ColumnView(uni, ts)[n]
  {
    if ts != [] {
      AddedView(uni, ts[1..], bs, n);
      FindIsView(uni, ts[0].column, bs);
      var rest := Unmatched(uni, ts[1..], bs);
      hide Normalize, FindColumn;
      if FindColumn(uni, ts[0].column, bs).None? {
        assert Unmatched(uni, ts, bs) == [ts[0]] + rest;
        assert ([ts[0]] + rest)[1..] == rest;
      } else {
        assert Unmatched(uni, ts, bs) == [] + rest == rest;
      }
    }
  }

  /** A column patched by its own comparison is the other side's; patched again it stays. */
  lemma PatchOne(b: ColumnEntry, t: ColumnEntry)
    ensures PatchColumn(Tracked(b), CompareColumn(b, t)) == Tracked(t)
    ensures PatchColumn(Tracked(t), CompareColumn(b, t)) == Tracked(t)
    ensures !ColumnChanged(CompareColumn(b, t)) ==> Tracked(b) == Tracked(t)
  {
  }

  /** Halfway through the modifications every name has its base or its target fields. */
  ghost predicate Between(m: Columns, v: Columns, w: Columns) {
    forall n :: n in m ==> n in v && n in w && (m[n] == v[n] || m[n] == w[n])
  }

  lemma {:induction false} PatchModifiedView(uni: Unicode, all: seq<ColumnEntry>, bs: seq<ColumnEntry>, ts: seq<ColumnEntry>, m: Columns, n: string)
    requires Consistent(uni, all) && (forall b :: b in bs ==> b in all)
    requires Between(m, ColumnView(uni, all), ColumnView(uni, ts))
    ensures n in PatchModified(uni, m, Modified(uni, bs, ts)) <==> n in m
    ensures n in m && (m[n] == ColumnView(uni, ts)[n] || exists b :: b in bs && Normalize(uni, b.column) == n) ==>
              PatchModified(uni, m, Modified(uni, bs, ts))[n] == ColumnView(uni, ts)[n]
    decreases |bs|
  {
    if bs != [] {
      assert bs[0] in all && forall b :: b in bs[1..] ==> b in bs;
      assert forall b :: b in bs ==> b == bs[0] || b in bs[1..];
      var next := PatchModified(uni, m, ModifiedOne(uni, bs[0], ts));
      PatchModifiedStep(uni, all, bs[0], ts, m);
      PatchModifiedConcat(uni, m, ModifiedOne(uni, bs[0], ts), Modified(uni, bs[1..], ts));
      hide PatchModified, ModifiedOne, ColumnView, Consistent, Normalize;
      PatchModifiedView(uni, all, bs[1..], ts, next, n);
    }
  }

  lemma PatchModifiedStep(uni: Unicode, all: seq<ColumnEntry>, b: ColumnEntry, ts: seq<ColumnEntry>, m: Columns)
    requires Consistent(uni, all) && b in all && Between(m, ColumnView(uni, all), ColumnView(uni, ts))
    ensures var next, n := PatchModified(uni, m, ModifiedOne(uni, b, ts)), Normalize(uni, b.column);
      && next.Keys == m.Keys && Between(next, ColumnView(uni, all), ColumnView(uni, ts))
      && (n in m ==> next[n] == ColumnView(uni, ts)[n])
      && (forall x :: x in m && m[x] == ColumnView(uni, ts)[x] ==> next[x] == m[x])
  {
    ConsistentView(uni, all, b);
    FindIsView(uni, b.column, ts);
    var found := FindColumn(uni, b.column, ts);
    if found.Some? {
      PatchOne(b, found.value);
      var ds := ModifiedOne(uni, b, ts);
      assert ds != [] ==> ds == [CompareColumn(b, found.value)] && ds[1..] == [];
      hide CompareColumn, PatchColumn, Tracked, ColumnView, Normalize, ColumnChanged, Consistent, FindColumn;
    }
  }

  lemma {:induction false} PatchModifiedConcat(uni: Unicode, m: Columns, a: seq<ColumnDiff>, b: seq<ColumnDiff>)
    ensures PatchModified(uni, m, a + b) == PatchModified(uni, PatchModified(uni, m, a), b)
    decreases |a|
  {
    if a == [] {
      assert a + b == b;
    } else {
      assert (a + b)[1..] == a[1..] + b;
      var n := Normalize(uni, a[0].column);
      PatchModifiedConcat(uni, if n in m then m[n := PatchColumn(m[n], a[0])] else m, a[1..], b);
    }
  }

  /** The column lists of a dataset's difference turn the base's columns into the target's. */
  lemma ColumnsPatch(uni: Unicode, bs: seq<ColumnEntry>, ts: seq<ColumnEntry>)
    requires Consistent(uni, bs)
    ensures PatchColumns(uni, ColumnView(uni, bs), Unmatched(uni, bs, ts), Modified(uni, bs, ts), Unmatched(uni, ts, bs))
         == ColumnView(uni, ts)
  {
    var v, w := ColumnView(uni, bs), ColumnView(uni, ts);
    var removed, modified, added := Unmatched(uni, bs, ts), Modified(uni, bs, ts), Unmatched(uni, ts, bs);
    var kept := v - NamesOf(uni, removed);
    var patched := PatchModified(uni, kept, modified);
    hide PatchModified, Modified, Consistent, ColumnView, Unmatched;
    forall n
      ensures n in kept <==> n in v && n in w
    {
      AddedView(uni, bs, ts, n);
      ViewKeys(uni, removed, n);
    }
    assert Between(kept, v, w);
    forall n
      ensures n in patched + ColumnView(uni, added) <==> n in w
      ensures n in w ==> (patched + ColumnView(uni, added))[n] == w[n]
    {
      PatchModifiedView(uni, bs, bs, ts, kept, n);
      ViewKeys(uni, bs, n);
      AddedView(uni, ts, bs, n);
    }
    assert patched + ColumnView(uni, added) == w;
  }

  /** Patching a common dataset with its difference gives the target's dataset, whether
      or not the difference was worth reporting. */
  lemma DatasetPatches(uni: Unicode, id: string, b: DatasetManifest, t: DatasetManifest, bs: seq<ColumnEntry>, ts: seq<ColumnEntry>)
    requires Consistent(uni, bs)
    ensures PatchDataset(uni, ViewOfDataset(uni, b, bs), CompareDataset(uni, id, b, t, bs, ts)) == ViewOfDataset(uni, t, ts)
    ensures !DatasetChanged(CompareDataset(uni, id, b, t, bs, ts)) ==> ViewOfDataset(uni, b, bs) == ViewOfDataset(uni, t, ts)
  {
    ColumnsPatch(uni, bs, ts);
    DatasetExact(uni, id, b, t, bs, ts);
    hide Unmatched, Modified, ColumnView, PatchColumns, DatasetChanged;
  }

  /** The reported difference of a dataset, if there is one. */
  function ReportFor(ds: seq<DatasetDiff>, id: string): (r: Option<DatasetDiff>)
    ensures r.Some? ==> r.value in ds && r.value.datasetId == id
    ensures r.None? ==> forall d :: d in ds ==> d.datasetId != id
  {
    if ds == [] then None else if ds[0].datasetId == id then Some(ds[0]) else ReportFor(ds[1..], id)
  }

  /** Patching the base with the report: every dataset of both sides becomes the
      target's, and the other ids are the target's too. */
  lemma PatchGivesTarget(uni: Unicode, base: Snapshot, target: Snapshot, id: string)
    requires ConsistentSnapshot(uni, base)
    ensures var d, v, w := DiffOf(uni, base, target), ViewOf(uni, base), ViewOf(uni, target);
      && (id in w <==> (id in v && (forall r :: r in d.datasetsRemoved ==> r.id != id))
                       || exists a :: a in d.datasetsAdded && a.id == id)
      && (id in v && id in w ==>
           w[id] == match ReportFor(d.datasetsModified, id)
                    case None => v[id]
                    case Some(change) => PatchDataset(uni, v[id], change))
      && (forall a :: a in d.datasetsAdded ==> a.id in DatasetMap(target.datasets) && DatasetMap(target.datasets)[a.id] == a)
  {
    var bm, tm := DatasetMap(base.datasets), DatasetMap(target.datasets);
    var d := DiffOf(uni, base, target);
    assert d.datasetsAdded == OnlyIn(tm, bm, Ids(tm)) && d.datasetsRemoved == OnlyIn(bm, tm, Ids(bm));
    ModifiedOf(uni, base, target);
    ViewAt(uni, base, id);
    ViewAt(uni, target, id);
    if id in bm && id !in tm {
      assert bm[id] in d.datasetsRemoved;
    }
    if id in tm && id !in bm {
      assert tm[id] in d.datasetsAdded;
    }
    if id in bm && id in tm {
      DatasetPatches(uni, id, bm[id], tm[id], DatasetColumns(id, base.columns), DatasetColumns(id, target.columns));
      var report := ReportFor(d.datasetsModified, id);
      hide DatasetMap, ViewOfDataset, DatasetColumns, ViewOf, DatasetChanged, PatchDataset, DiffOf, OnlyIn, ReportFor;
      assert CommonDiff(uni, base, target, id).datasetId == id;
      if report.Some? {
        var other :| other in bm && other in tm && report.value == CommonDiff(uni, base, target, other);
        assert CommonDiff(uni, base, target, other).datasetId == other;
      }
    }
  }
}
