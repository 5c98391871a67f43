// Laws over several drift reports: swapping the snapshots reverses the report, and
// breaking changes compose, but for a precision or scale that was forgotten between.
module DriftLaws {
  import opened Prelude
  import opened CatalogModel
  import opened Diff
  import opened DiffTheorems

  // ----- swapping the snapshots -----

  function Reverse<T>(change: Option<Change<T>>): Option<Change<T>> {
    match change case None => None case Some(c) => Some(Change(c.new_, c.old_))
  }

  /** The same column's changes, each with old and new exchanged. */
  predicate Reversed(uni: Unicode, c: ColumnDiff, d: ColumnDiff) {
    && SameIdentifier(uni, c.column, d.column)
    && d.dtype == Reverse(c.dtype) && d.snowflakeType == Reverse(c.snowflakeType) && d.nullable == Reverse(c.nullable)
    && d.precision == Reverse(c.precision) && d.scale == Reverse(c.scale) && d.comment == Reverse(c.comment)
  }

  /** Comparing the other way round exchanges old and new. */
  lemma CompareReverses(uni: Unicode, b: ColumnEntry, t: ColumnEntry, first: ColumnEntry)
    requires SameIdentifier(uni, b.column, t.column) && Tracked(first) == Tracked(b)
    ensures Reversed(uni, CompareColumn(b, t), CompareColumn(t, first))
    ensures ColumnChanged(CompareColumn(t, first)) <==> ColumnChanged(CompareColumn(b, t))
  {
    hide Normalize;
  }

  lemma ModifiedOneIs(uni: Unicode, b: ColumnEntry, ts: seq<ColumnEntry>, c: ColumnDiff)
    ensures c in ModifiedOne(uni, b, ts)
       <==> FindColumn(uni, b.column, ts).Some? && c == CompareColumn(b, FindColumn(uni, b.column, ts).value)
            && ColumnChanged(c)
  {
    hide CompareColumn, ColumnChanged, FindColumn;
  }

  /** Every reported column change is reported, exchanged, the other way round. */
  lemma ModifiedReverses(uni: Unicode, bs: seq<ColumnEntry>, ts: seq<ColumnEntry>, c: ColumnDiff)
    requires Consistent(uni, bs) && c in Modified(uni, bs, ts)
    ensures exists d :: d in Modified(uni, ts, bs) && Reversed(uni, c, d)
  {
    ModifiedMembers(uni, bs, ts);
    ModifiedMembers(uni, ts, bs);
    var b :| b in bs && c in ModifiedOne(uni, b, ts);
    hide Modified, ModifiedOne, CompareColumn, ColumnChanged, Tracked, Reversed, Normalize, ColumnView, Consistent;
    ModifiedOneIs(uni, b, ts, c);
    var t := FindColumn(uni, b.column, ts).value;
    ConsistentView(uni, bs, b);
    FindIsView(uni, t.column, bs);
    var first := FindColumn(uni, t.column, bs).value;
    CompareReverses(uni, b, t, first);
    ModifiedOneIs(uni, t, bs, CompareColumn(t, first));
  }

  /** Swapping the arguments swaps added with removed datasets and relations, and keeps the
      verdict. */
  lemma SwapReverses(uni: Unicode, base: Snapshot, target: Snapshot)
    requires ConsistentSnapshot(uni, base) && ConsistentSnapshot(uni, target)
    ensures var d, e := DiffOf(uni, base, target), DiffOf(uni, target, base);
      && e.datasetsAdded == d.datasetsRemoved && e.datasetsRemoved == d.datasetsAdded
      && e.relationsAdded == d.relationsRemoved && e.relationsRemoved == d.relationsAdded
      && e.summary.isIdentical == d.summary.isIdentical
  {
    IdenticalIsExact(uni, base, target);
    IdenticalIsExact(uni, target, base);
    hide DatasetMap, ModifiedDatasets, OnlyIn, ViewOf, ConsistentSnapshot, CountAdded, CountRemoved, CountModified;
  }

  /** Of a common dataset it swaps added with removed columns, exchanges old and new in each
      column change, and keeps whether the dataset is reported at all. */
  lemma SwapDataset(uni: Unicode, base: Snapshot, target: Snapshot, id: string)
    requires ConsistentSnapshot(uni, base) && ConsistentSnapshot(uni, target)
    requires id in DatasetMap(base.datasets) && id in DatasetMap(target.datasets)
    ensures var d, e := CommonDiff(uni, base, target, id), CommonDiff(uni, target, base, id);
      && e.columnsAdded == d.columnsRemoved && e.columnsRemoved == d.columnsAdded
      && (forall c :: c in d.columnsModified ==> exists f :: f in e.columnsModified && Reversed(uni, c, f))
      && DatasetChanged(e) == DatasetChanged(d)
      && (d in DiffOf(uni, base, target).datasetsModified <==> e in DiffOf(uni, target, base).datasetsModified)
  {
    var bs, ts := DatasetColumns(id, base.columns), DatasetColumns(id, target.columns);
    var d, e := CommonDiff(uni, base, target, id), CommonDiff(uni, target, base, id);
    forall c | c in d.columnsModified
      ensures exists f :: f in e.columnsModified && Reversed(uni, c, f)
    {
      ModifiedReverses(uni, bs, ts, c);
    }
    CommonExact(uni, base, target, id);
    CommonExact(uni, target, base, id);
    ModifiedOf(uni, base, target);
    ModifiedOf(uni, target, base);
    hide DatasetMap, DatasetChanged, DiffOf, ViewOf, Modified, Unmatched, DatasetColumns, Reversed, Consistent;
  }

  // ----- breaking changes -----

  predicate BreaksColumn(b: TrackedColumn, t: TrackedColumn) {
    b.dtype != t.dtype || (b.nullable && !t.nullable) || Narrowed(b.precision, t.precision) || Narrowed(b.scale, t.scale)
  }

  /** A column dropped, or changed so that a consumer may fail. */
  ghost predicate BreaksColumns(v: Columns, w: Columns) {
    exists n :: n in v && (n !in w || BreaksColumn(v[n], w[n]))
  }

  /** A dataset dropped, or its columns broken. */
  ghost predicate BreaksView(v: View, w: View) {
    exists id :: id in v && (id !in w || BreaksColumns(v[id].columns, w[id].columns))
  }

  lemma BreakingOne(b: ColumnEntry, t: ColumnEntry)
    ensures CompareColumn(b, t).isBreaking <==> BreaksColumn(Tracked(b), Tracked(t))
    ensures CompareColumn(b, t).isBreaking ==> ColumnChanged(CompareColumn(b, t))
  {
  }

  /** Of one dataset: the flag is set exactly when a name is gone or its column breaks. */
  lemma BreakingColumns(uni: Unicode, bs: seq<ColumnEntry>, ts: seq<ColumnEntry>)
    requires Consistent(uni, bs)
    ensures Unmatched(uni, bs, ts) != [] || AnyBreaking(Modified(uni, bs, ts))
       <==> BreaksColumns(ColumnView(uni, bs), ColumnView(uni, ts))
  {
    var v, w := ColumnView(uni, bs), ColumnView(uni, ts);
    UnmatchedIsView(uni, bs, ts);
    ModifiedMembers(uni, bs, ts);
    hide Unmatched, Modified, ColumnView, Consistent, CompareColumn, BreaksColumn, Normalize;
    if AnyBreaking(Modified(uni, bs, ts)) {
      var d :| d in Modified(uni, bs, ts) && d.isBreaking;
      var b :| b in bs && d in ModifiedOne(uni, b, ts);
      BreakingFound(uni, bs, ts, b);
    }
    if n :| n in v && n in w && BreaksColumn(v[n], w[n]) {
      ViewKeys(uni, bs, n);
      var b :| b in bs && Normalize(uni, b.column) == n && Tracked(b) == v[n];
      BreakingFound(uni, bs, ts, b);
      assert exists d :: d in ModifiedOne(uni, b, ts) && d.isBreaking;
    }
  }

  lemma BreakingFound(uni: Unicode, bs: seq<ColumnEntry>, ts: seq<ColumnEntry>, b: ColumnEntry)
    requires Consistent(uni, bs) && b in bs
    ensures Normalize(uni, b.column) in ColumnView(uni, bs)
    ensures (exists d :: d in ModifiedOne(uni, b, ts) && d.isBreaking)
       <==> Normalize(uni, b.column) in ColumnView(uni, ts)
            && BreaksColumn(ColumnView(uni, bs)[Normalize(uni, b.column)], ColumnView(uni, ts)[Normalize(uni, b.column)])
  {
    ConsistentView(uni, bs, b);
    FindIsView(uni, b.column, ts);
    var found := FindColumn(uni, b.column, ts);
    if found.Some? {
      BreakingOne(b, found.value);
      hide CompareColumn, BreaksColumn, ColumnView, Normalize, Consistent, ColumnChanged, FindColumn;
      assert ColumnChanged(CompareColumn(b, found.value)) ==> CompareColumn(b, found.value) in ModifiedOne(uni, b, ts);
    }
  }

  lemma BreakingCommon(uni: Unicode, base: Snapshot, target: Snapshot, id: string)
    requires ConsistentSnapshot(uni, base) && id in DatasetMap(base.datasets) && id in DatasetMap(target.datasets)
    ensures id in ViewOf(uni, base) && id in ViewOf(uni, target)
    ensures CommonDiff(uni, base, target, id).isBreaking
       <==> BreaksColumns(ViewOf(uni, base)[id].columns, ViewOf(uni, target)[id].columns)
    ensures CommonDiff(uni, base, target, id).isBreaking ==> DatasetChanged(CommonDiff(uni, base, target, id))
  {
    ViewAt(uni, base, id);
    ViewAt(uni, target, id);
    BreakingColumns(uni, DatasetColumns(id, base.columns), DatasetColumns(id, target.columns));
    hide DatasetMap, DatasetColumns, Unmatched, Modified, BreaksColumns, ViewOf, Consistent;
  }

  lemma BreakingIs(uni: Unicode, base: Snapshot, target: Snapshot)
    ensures DiffOf(uni, base, target).summary.hasBreakingChanges
       <==> !(DatasetMap(base.datasets).Keys <= DatasetMap(target.datasets).Keys)
            || exists d :: d in DiffOf(uni, base, target).datasetsModified && d.isBreaking
  {
    OnlyInOf(DatasetMap(base.datasets), DatasetMap(target.datasets));
    hide OnlyIn, ModifiedDatasets, DatasetMap, CountAdded, CountModified, CountRemoved;
  }

  /** The breaking flag is sound and complete for the tracked views. */
  lemma BreakingIsExact(uni: Unicode, base: Snapshot, target: Snapshot)
    requires ConsistentSnapshot(uni, base)
    ensures DiffOf(uni, base, target).summary.hasBreakingChanges <==> BreaksView(ViewOf(uni, base), ViewOf(uni, target))
  {
    var bm, tm := DatasetMap(base.datasets), DatasetMap(target.datasets);
    var v, w := ViewOf(uni, base), ViewOf(uni, target);
    var modified := DiffOf(uni, base, target).datasetsModified;
    BreakingIs(uni, base, target);
    ModifiedOf(uni, base, target);
    hide DatasetMap, CommonDiff, DatasetChanged, DiffOf, ViewOf, BreaksColumns, ConsistentSnapshot;
    ViewKeysAre(uni, base);
    ViewKeysAre(uni, target);
    if d :| d in modified && d.isBreaking {
      var id :| id in bm && id in tm && d == CommonDiff(uni, base, target, id);
      BreakingCommon(uni, base, target, id);
    }
    if id :| id in v && id in w && BreaksColumns(v[id].columns, w[id].columns) {
      BreakingCommon(uni, base, target, id);
      assert CommonDiff(uni, base, target, id) in modified;
    }
  }

  // ----- composition -----

  /** A number that was given, is not given in between, and comes back smaller. */
  predicate ForgottenBetween(a: Option<nat>, b: Option<nat>, c: Option<nat>) {
    Narrowed(a, c) && b.None?
  }

  /** A column of all three snapshots whose precision or scale was so forgotten. */
  ghost predicate ForgetsColumns(a: Columns, b: Columns, c: Columns) {
    exists n :: n in a && n in b && n in c
      && (ForgottenBetween(a[n].precision, b[n].precision, c[n].precision)
          || ForgottenBetween(a[n].scale, b[n].scale, c[n].scale))
  }

  ghost predicate Forgets(a: View, b: View, c: View) {
    exists id :: id in a && id in b && id in c && ForgetsColumns(a[id].columns, b[id].columns, c[id].columns)
  }

  lemma ColumnComposes(a: TrackedColumn, b: TrackedColumn, c: TrackedColumn)
    requires !BreaksColumn(a, b) && !BreaksColumn(b, c)
    ensures BreaksColumn(a, c) <==>
              ForgottenBetween(a.precision, b.precision, c.precision) || ForgottenBetween(a.scale, b.scale, c.scale)
  {
  }

  lemma ColumnsCompose(a: Columns, b: Columns, c: Columns)
    requires !BreaksColumns(a, b) && !BreaksColumns(b, c)
    ensures BreaksColumns(a, c) <==> ForgetsColumns(a, b, c)
  {
    hide BreaksColumn, ForgottenBetween;
    assert forall n :: n in a ==> n in b && !BreaksColumn(a[n], b[n]);
    assert forall n :: n in b ==> n in c && !BreaksColumn(b[n], c[n]);
    forall n | n in a
      ensures n in b && n in c
      ensures BreaksColumn(a[n], c[n]) <==>
                ForgottenBetween(a[n].precision, b[n].precision, c[n].precision)
                || ForgottenBetween(a[n].scale, b[n].scale, c[n].scale)
    {
      ColumnComposes(a[n], b[n], c[n]);
    }
  }

  lemma ViewsCompose(a: View, b: View, c: View)
    requires !BreaksView(a, b) && !BreaksView(b, c)
    ensures BreaksView(a, c) <==> Forgets(a, b, c)
  {
    hide BreaksColumns, ForgetsColumns;
    assert forall id :: id in a ==> id in b && !BreaksColumns(a[id].columns, b[id].columns);
    assert forall id :: id in b ==> id in c && !BreaksColumns(b[id].columns, c[id].columns);
    forall id | id in a
      ensures id in b && id in c
      ensures BreaksColumns(a[id].columns, c[id].columns) <==>
                ForgetsColumns(a[id].columns, b[id].columns, c[id].columns)
    {
      ColumnsCompose(a[id].columns, b[id].columns, c[id].columns);
    }
  }

  /** Breaking changes compose: when neither step breaks, the two together break
      exactly if a precision or scale was forgotten in between and came back smaller. */
  lemma BreakingComposes(uni: Unicode, a: Snapshot, b: Snapshot, c: Snapshot)
    requires ConsistentSnapshot(uni, a) && ConsistentSnapshot(uni, b)
    requires !DiffOf(uni, a, b).summary.hasBreakingChanges && !DiffOf(uni, b, c).summary.hasBreakingChanges
    ensures DiffOf(uni, a, c).summary.hasBreakingChanges <==> Forgets(ViewOf(uni, a), ViewOf(uni, b), ViewOf(uni, c))
  {
    BreakingIsExact(uni, a, b);
    BreakingIsExact(uni, b, c);
    BreakingIsExact(uni, a, c);
    hide DiffOf, ViewOf, BreaksView, Forgets;
    ViewsCompose(ViewOf(uni, a), ViewOf(uni, b), ViewOf(uni, c));
  }

  // ----- an instance -----

  function OneColumn(precision: Option<nat>): Snapshot {
    Snapshot("s", [DatasetManifest("d", "", "", "", Internal, 0, 0, None, None, None, [], "")],
      [ColumnEntry("d", "N", 1, "NUMBER", Number, true, precision, None, None, "")], false, [])
  }

  lemma OneColumnView(uni: Unicode, precision: Option<nat>)
    ensures ConsistentSnapshot(uni, OneColumn(precision))
    ensures ViewOf(uni, OneColumn(precision)).Keys == {"d"}
    ensures ViewOf(uni, OneColumn(precision))["d"].columns
         == map[Normalize(uni, "N") := TrackedColumn(Number, "NUMBER", true, precision, None, None)]
  {
    var s := OneColumn(precision);
    var m := s.datasets[0];
    var column := s.columns[0];
    assert s.datasets[..0] == [] && DatasetMap([]) == map[];
    assert DatasetMap(s.datasets) == map["d" := m];
    assert s.columns[1..] == [] && OfDataset("d", s.columns) == [column] + [];
    assert SortByOrdinal([column][1..]) == [];
    assert DatasetColumns("d", s.columns) == [column];
    assert [column][1..] == [] && ColumnView(uni, []) == map[];
    assert ColumnView(uni, [column]) == map[][Normalize(uni, "N") := Tracked(column)];
    ViewAt(uni, s, "d");
  }

  /** On one-column snapshots the flag is the column's. */
  lemma OneColumnBreaks(uni: Unicode, before: Option<nat>, after: Option<nat>)
    ensures DiffOf(uni, OneColumn(before), OneColumn(after)).summary.hasBreakingChanges <==> Narrowed(before, after)
  {
    OneColumnView(uni, before);
    OneColumnView(uni, after);
    BreakingIsExact(uni, OneColumn(before), OneColumn(after));
    hide *;
    var n := Normalize(uni, "N");
    SingleBreaks(ViewOf(uni, OneColumn(before)), ViewOf(uni, OneColumn(after)), "d", n,
      TrackedColumn(Number, "NUMBER", true, before, None, None), TrackedColumn(Number, "NUMBER", true, after, None, None));
    NumberBreaks(before, after);
  }

  lemma SingleBreaks(v: View, w: View, id: string, n: string, b: TrackedColumn, t: TrackedColumn)
    requires v.Keys == {id} == w.Keys && v[id].columns == map[n := b] && w[id].columns == map[n := t]
    ensures BreaksView(v, w) <==> BreaksColumn(b, t)
  {
    hide BreaksColumn;
    assert id in v && id in w;
    assert BreaksColumns(v[id].columns, w[id].columns) <==> BreaksColumn(b, t) by {
      assert n in v[id].columns && n in w[id].columns;
    }
  }

  lemma NumberBreaks(before: Option<nat>, after: Option<nat>)
    ensures Narrowed(before, after)
       <==> BreaksColumn(TrackedColumn(Number, "NUMBER", true, before, None, None),
              TrackedColumn(Number, "NUMBER", true, after, None, None))
  {
  }

  /** The exception is real: 38 digits, then none given, then 10. */
  lemma ForgottenPrecision(uni: Unicode)
    ensures !DiffOf(uni, OneColumn(Some(38)), OneColumn(None)).summary.hasBreakingChanges
    ensures !DiffOf(uni, OneColumn(None), OneColumn(Some(10))).summary.hasBreakingChanges
    ensures DiffOf(uni, OneColumn(Some(38)), OneColumn(Some(10))).summary.hasBreakingChanges
  {
    OneColumnBreaks(uni, Some(38), None);
    OneColumnBreaks(uni, None, Some(10));
    OneColumnBreaks(uni, Some(38), Some(10));
    hide DiffOf, OneColumn;
  }
}
