// What the drift report sees and misses of the columns themselves: two columns of one
// dataset whose names are one up to case, underscores, dashes and spaces are one column
// to it. Where no two are, the report and its breaking flag are exact.
module ColumnFacts {
  import opened Prelude
  import opened CatalogModel
  import Ordinals
  import opened Diff
  import opened DiffTheorems
  import opened DriftLaws

  // ----- the columns of a dataset, every one of them -----

  /** The columns, each by its normalised name and tracked fields. */
  function FactsOfColumns(uni: Unicode, cs: seq<ColumnEntry>): multiset<(string, TrackedColumn)> {
    if cs == [] then multiset{}
    else multiset{(Normalize(uni, cs[0].column), Tracked(cs[0]))} + FactsOfColumns(uni, cs[1..])
  }

  /** How many columns have the normalised name `n`. */
  function CountNamed(uni: Unicode, cs: seq<ColumnEntry>, n: string): nat {
    if cs == [] then 0 else (if Normalize(uni, cs[0].column) == n then 1 else 0) + CountNamed(uni, cs[1..], n)
  }

  /** The columns of a view. */
  function Listed(m: Columns): multiset<(string, TrackedColumn)> {
    multiset(set n | n in m :: (n, m[n]))
  }

  predicate DistinctNames(uni: Unicode, cs: seq<ColumnEntry>) {
    forall i, j :: 0 <= i < j < |cs| ==> !SameIdentifier(uni, cs[i].column, cs[j].column)
  }

  lemma {:induction false} CountIsView(uni: Unicode, cs: seq<ColumnEntry>, n: string)
    ensures CountNamed(uni, cs, n) > 0 <==> n in ColumnView(uni, cs)
  {
    if cs != [] {
      CountIsView(uni, cs[1..], n);
      hide Normalize, Tracked;
    }
  }

  lemma DistinctTail(uni: Unicode, cs: seq<ColumnEntry>)
    requires cs != []
    ensures DistinctNames(uni, cs)
       <==> DistinctNames(uni, cs[1..]) && CountNamed(uni, cs[1..], Normalize(uni, cs[0].column)) == 0
  {
    var n := Normalize(uni, cs[0].column);
    CountIsView(uni, cs[1..], n);
    ViewKeys(uni, cs[1..], n);
    hide Normalize, ColumnView, CountNamed;
    if DistinctNames(uni, cs) {
      forall i, j | 0 <= i < j < |cs[1..]|
        ensures !SameIdentifier(uni, cs[1..][i].column, cs[1..][j].column)
      {
        assert cs[1..][i] == cs[i + 1] && cs[1..][j] == cs[j + 1];
      }
      forall x | x in cs[1..]
        ensures Normalize(uni, x.column) != n
      {
        var i :| 0 <= i < |cs[1..]| && cs[1..][i] == x;
        assert x == cs[i + 1];
      }
    }
    if DistinctNames(uni, cs[1..]) && n !in ColumnView(uni, cs[1..]) {
      forall i, j | 0 <= i < j < |cs|
        ensures !SameIdentifier(uni, cs[i].column, cs[j].column)
      {
        assert cs[j] == cs[1..][j - 1];
        if i > 0 {
          assert cs[i] == cs[1..][i - 1];
        } else {
          assert cs[j] in cs[1..];
        }
      }
    }
  }

  lemma CountStep(uni: Unicode, cs: seq<ColumnEntry>, n: string)
    requires cs != []
    ensures CountNamed(uni, cs, n)
         == (if n == Normalize(uni, cs[0].column) then 1 else 0) + CountNamed(uni, cs[1..], n)
  {
    hide Normalize;
  }

  ghost predicate CountedOnce(uni: Unicode, cs: seq<ColumnEntry>) {
    forall n :: CountNamed(uni, cs, n) <= 1
  }

  lemma {:induction false} DistinctCount(uni: Unicode, cs: seq<ColumnEntry>, n: string)
    requires DistinctNames(uni, cs)
    ensures CountNamed(uni, cs, n) <= 1
  {
    if cs != [] {
      DistinctTail(uni, cs);
      CountStep(uni, cs, n);
      hide *;
      DistinctCount(uni, cs[1..], n);
    }
  }

  lemma {:induction false} Repeated(uni: Unicode, cs: seq<ColumnEntry>) returns (n: string)
    requires !DistinctNames(uni, cs)
    ensures CountNamed(uni, cs, n) > 1
  {
    DistinctTail(uni, cs);
    hide *;
    n := Normalize(uni, cs[0].column);
    if CountNamed(uni, cs[1..], n) == 0 {
      n := Repeated(uni, cs[1..]);
    }
    CountStep(uni, cs, n);
  }

  /** Names are distinct exactly when none is counted twice. */
  lemma DistinctIsCountedOnce(uni: Unicode, cs: seq<ColumnEntry>)
    ensures DistinctNames(uni, cs) <==> CountedOnce(uni, cs)
  {
    hide DistinctNames, CountNamed;
    if DistinctNames(uni, cs) {
      forall n
        ensures CountNamed(uni, cs, n) <= 1
      {
        DistinctCount(uni, cs, n);
      }
    } else {
      var n := Repeated(uni, cs);
    }
  }

  /** With distinct names the view keeps every column. */
  lemma {:induction false} DistinctFacts(uni: Unicode, cs: seq<ColumnEntry>)
    requires DistinctNames(uni, cs)
    ensures FactsOfColumns(uni, cs) == Listed(ColumnView(uni, cs))
    ensures Consistent(uni, cs)
  {
    DistinctAgree(uni, cs);
    if cs != [] {
      DistinctTail(uni, cs);
      DistinctFacts(uni, cs[1..]);
      var n, rest := Normalize(uni, cs[0].column), ColumnView(uni, cs[1..]);
      CountIsView(uni, cs[1..], n);
      hide Normalize, Tracked, CountNamed, Consistent, DistinctNames;
      NewItem(rest, n, Tracked(cs[0]));
    }
  }

  lemma NewItem(m: Columns, n: string, t: TrackedColumn)
    requires n !in m
    ensures Listed(m[n := t]) == multiset{(n, t)} + Listed(m)
  {
    var next := m[n := t];
    var before := set x | x in m :: (x, m[x]);
    forall p | p in before
      ensures p != (n, t)
    {
    }
    var after := set x | x in next :: (x, next[x]);
    forall p | p in before + {(n, t)}
      ensures p in after
    {
      assert p.0 in next && next[p.0] == p.1;
    }
    assert after == before + {(n, t)};
    assert (n, t) !in before;
  }

  lemma DistinctAgree(uni: Unicode, cs: seq<ColumnEntry>)
    requires DistinctNames(uni, cs)
    ensures Consistent(uni, cs)
  {
    forall x, y | x in cs && y in cs && SameIdentifier(uni, x.column, y.column)
      ensures Tracked(x) == Tracked(y)
    {
      var i :| 0 <= i < |cs| && cs[i] == x;
      var j :| 0 <= j < |cs| && cs[j] == y;
      hide Normalize;
      assert !(i < j) && !(j < i);
    }
  }

  lemma SameListed(v: Columns, w: Columns)
    requires Listed(v) == Listed(w)
    ensures v == w
  {
    forall n | n in v
      ensures n in w && w[n] == v[n]
    {
      assert (n, v[n]) in Listed(v);
      assert (n, v[n]) in Listed(w);
    }
    forall n | n in w
      ensures n in v
    {
      assert (n, w[n]) in Listed(w);
      assert (n, w[n]) in Listed(v);
    }
  }

  /** Distinct names on both sides: the lists of differences are empty exactly when the two
      sides have the same columns. */
  lemma ColumnsExactWhenDistinct(uni: Unicode, bs: seq<ColumnEntry>, ts: seq<ColumnEntry>)
    requires DistinctNames(uni, bs) && DistinctNames(uni, ts)
    ensures Unmatched(uni, ts, bs) == [] && Unmatched(uni, bs, ts) == [] && Modified(uni, bs, ts) == []
       <==> FactsOfColumns(uni, bs) == FactsOfColumns(uni, ts)
  {
    ColumnsExact(uni, bs, ts);
    DistinctFacts(uni, bs);
    DistinctFacts(uni, ts);
    hide FactsOfColumns, ColumnView, Unmatched, Modified, DistinctNames, Consistent;
    if FactsOfColumns(uni, bs) == FactsOfColumns(uni, ts) {
      SameListed(ColumnView(uni, bs), ColumnView(uni, ts));
    }
  }

  // ----- a column dropped or added -----

  /** The columns without the one at `i`. */
  function DropAt(cs: seq<ColumnEntry>, i: nat): seq<ColumnEntry>
    requires i < |cs|
  {
    cs[..i] + cs[i + 1..]
  }

  lemma {:induction false} CountConcat(uni: Unicode, a: seq<ColumnEntry>, b: seq<ColumnEntry>, n: string)
    ensures CountNamed(uni, a + b, n) == CountNamed(uni, a, n) + CountNamed(uni, b, n)
  {
    if a == [] {
      assert a + b == b;
    } else {
      assert (a + b)[1..] == a[1..] + b;
      hide Normalize;
      CountConcat(uni, a[1..], b, n);
    }
  }

  lemma CountDropped(uni: Unicode, cs: seq<ColumnEntry>, i: nat, n: string)
    requires i < |cs|
    ensures CountNamed(uni, cs, n)
         == CountNamed(uni, DropAt(cs, i), n) + if Normalize(uni, cs[i].column) == n then 1 else 0
  {
    assert cs == cs[..i] + ([cs[i]] + cs[i + 1..]);
    CountConcat(uni, cs[..i], [cs[i]] + cs[i + 1..], n);
    CountConcat(uni, [cs[i]], cs[i + 1..], n);
    CountConcat(uni, cs[..i], cs[i + 1..], n);
    assert [cs[i]][1..] == [];
    hide Normalize;
    assert CountNamed(uni, [cs[i]], n) == if Normalize(uni, cs[i].column) == n then 1 else 0;
  }

  lemma DroppedName(uni: Unicode, cs: seq<ColumnEntry>, i: nat, n: string)
    requires i < |cs|
    ensures Normalize(uni, cs[i].column) in ColumnView(uni, cs) && CountNamed(uni, cs, Normalize(uni, cs[i].column)) >= 1
    ensures n in ColumnView(uni, DropAt(cs, i))
       <==> n in ColumnView(uni, cs)
            && (n == Normalize(uni, cs[i].column) ==> CountNamed(uni, cs, Normalize(uni, cs[i].column)) > 1)
  {
    hide *;
    CountIsView(uni, cs, n);
    CountIsView(uni, DropAt(cs, i), n);
    CountDropped(uni, cs, i, n);
    CountIsView(uni, cs, Normalize(uni, cs[i].column));
    CountDropped(uni, cs, i, Normalize(uni, cs[i].column));
  }

  /** A column that is dropped, or added, is listed as removed, or added, exactly when no
      other column of its dataset has its name. */
  lemma ListedIffAlone(uni: Unicode, cs: seq<ColumnEntry>, i: nat)
    requires i < |cs|
    ensures Unmatched(uni, cs, DropAt(cs, i)) != [] <==> CountNamed(uni, cs, Normalize(uni, cs[i].column)) == 1
    ensures Unmatched(uni, DropAt(cs, i), cs) == []
  {
    hide *;
    UnmatchedIsView(uni, cs, DropAt(cs, i));
    UnmatchedIsView(uni, DropAt(cs, i), cs);
    DroppedName(uni, cs, i, Normalize(uni, cs[i].column));
    forall n
      ensures n in ColumnView(uni, DropAt(cs, i))
         <==> n in ColumnView(uni, cs)
              && (n == Normalize(uni, cs[i].column) ==> CountNamed(uni, cs, Normalize(uni, cs[i].column)) > 1)
    {
      DroppedName(uni, cs, i, n);
    }
  }

  /** So a drop of any one column is listed exactly when the names are distinct. */
  lemma EveryDropListedIffDistinct(uni: Unicode, cs: seq<ColumnEntry>)
    ensures (forall i :: 0 <= i < |cs| ==> Unmatched(uni, cs, DropAt(cs, i)) != []) <==> DistinctNames(uni, cs)
  {
    DistinctIsCountedOnce(uni, cs);
    hide Unmatched, Normalize, CountNamed, DropAt, DistinctNames;
    forall i | 0 <= i < |cs|
      ensures Unmatched(uni, cs, DropAt(cs, i)) != [] <==> CountNamed(uni, cs, Normalize(uni, cs[i].column)) <= 1
    {
      ListedIffAlone(uni, cs, i);
      CountMember(uni, cs, i);
    }
    if n :| CountNamed(uni, cs, n) > 1 {
      var i := Named(uni, cs, n);
      assert Unmatched(uni, cs, DropAt(cs, i)) == [];
    }
  }

  lemma CountMember(uni: Unicode, cs: seq<ColumnEntry>, i: nat)
    requires i < |cs|
    ensures CountNamed(uni, cs, Normalize(uni, cs[i].column)) >= 1
  {
    CountDropped(uni, cs, i, Normalize(uni, cs[i].column));
  }

  lemma Named(uni: Unicode, cs: seq<ColumnEntry>, n: string) returns (i: nat)
    requires CountNamed(uni, cs, n) > 0
    ensures i < |cs| && Normalize(uni, cs[i].column) == n
  {
    CountIsView(uni, cs, n);
    ViewKeys(uni, cs, n);
    var x :| x in cs && Normalize(uni, x.column) == n;
    i :| i < |cs| && cs[i] == x;
  }

  /** A drop goes wholly unseen - no list has an entry, no flag is set - exactly when all
      columns of one name agree and another column has the name of the dropped one. */
  lemma DropUnseen(uni: Unicode, id: string, d: DatasetManifest, cs: seq<ColumnEntry>, i: nat)
    requires i < |cs|
    ensures !DatasetChanged(CompareDataset(uni, id, d, d, cs, DropAt(cs, i)))
       <==> Consistent(uni, cs) && CountNamed(uni, cs, Normalize(uni, cs[i].column)) > 1
    ensures !DatasetChanged(CompareDataset(uni, id, d, d, cs, DropAt(cs, i))) ==>
              !CompareDataset(uni, id, d, d, cs, DropAt(cs, i)).isBreaking
  {
    hide *;
    var rest := DropAt(cs, i);
    ListedIffAlone(uni, cs, i);
    CountMember(uni, cs, i);
    NoColumnChange(uni, id, d, cs, rest);
    if Unmatched(uni, cs, rest) == [] && Modified(uni, cs, rest) == [] {
      UnmodifiedIsConsistent(uni, cs, rest);
    }
    if Consistent(uni, cs) {
      DropsNothingElse(cs, i);
      NothingModified(uni, cs, rest);
    }
  }

  lemma DropsNothingElse(cs: seq<ColumnEntry>, i: nat)
    requires i < |cs|
    ensures forall x :: x in DropAt(cs, i) ==> x in cs
  {
  }

  lemma NoColumnChange(uni: Unicode, id: string, d: DatasetManifest, bs: seq<ColumnEntry>, ts: seq<ColumnEntry>)
    ensures !DatasetChanged(CompareDataset(uni, id, d, d, bs, ts))
       <==> Unmatched(uni, ts, bs) == [] && Unmatched(uni, bs, ts) == [] && Modified(uni, bs, ts) == []
    ensures !DatasetChanged(CompareDataset(uni, id, d, d, bs, ts)) ==> !CompareDataset(uni, id, d, d, bs, ts).isBreaking
  {
    hide Unmatched, Modified;
  }

  /** Columns kept as they are, of names that agree, show no modification. */
  lemma NothingModified(uni: Unicode, bs: seq<ColumnEntry>, ts: seq<ColumnEntry>)
    requires Consistent(uni, bs) && forall x :: x in ts ==> x in bs
    ensures Modified(uni, bs, ts) == []
  {
    ModifiedIsView(uni, bs, ts);
    hide ColumnView, Modified, Normalize, Consistent;
    forall n | n in ColumnView(uni, bs) && n in ColumnView(uni, ts)
      ensures ColumnView(uni, bs)[n] == ColumnView(uni, ts)[n]
    {
      ViewKeys(uni, ts, n);
      var x :| x in ts && Normalize(uni, x.column) == n && Tracked(x) == ColumnView(uni, ts)[n];
      ConsistentView(uni, bs, x);
    }
  }

  /** The view without a column is the view with it exactly when the name is not lost and
      the first column of the name has the same tracked fields. */
  lemma DroppedView(uni: Unicode, cs: seq<ColumnEntry>, i: nat)
    requires i < |cs|
    ensures ColumnView(uni, DropAt(cs, i)) == ColumnView(uni, cs)
       <==> && FindColumn(uni, cs[i].column, DropAt(cs, i)).Some?
            && FindColumn(uni, cs[i].column, cs).Some?
            && Tracked(FindColumn(uni, cs[i].column, DropAt(cs, i)).value) == Tracked(FindColumn(uni, cs[i].column, cs).value)
  {
    hide *;
    var name := Normalize(uni, cs[i].column);
    var v, w := ColumnView(uni, DropAt(cs, i)), ColumnView(uni, cs);
    FindIsView(uni, cs[i].column, DropAt(cs, i));
    FindIsView(uni, cs[i].column, cs);
    DroppedName(uni, cs, i, name);
    forall n | n != name
      ensures n in v <==> n in w
      ensures n in w ==> v[n] == w[n]
    {
      ViewElsewhere(uni, cs, i, n);
    }
    SameButOne(v, w, name);
  }

  lemma SameButOne(v: Columns, w: Columns, name: string)
    requires name in w && forall n :: n != name ==> (n in v <==> n in w) && (n in w ==> v[n] == w[n])
    ensures v == w <==> name in v && v[name] == w[name]
  {
  }

  /** An addition goes wholly unseen exactly when the other columns of one name agree, one
      of them has the added one's name, and the first column of that name, with the added
      one among them, still has the same tracked fields. */
  lemma AddUnseen(uni: Unicode, id: string, d: DatasetManifest, cs: seq<ColumnEntry>, i: nat)
    requires i < |cs|
    ensures FindColumn(uni, cs[i].column, cs).Some?
    ensures var rest, first := DropAt(cs, i), FindColumn(uni, cs[i].column, cs).value;
      !DatasetChanged(CompareDataset(uni, id, d, d, rest, cs))
      <==> && Consistent(uni, rest)
           && FindColumn(uni, cs[i].column, rest).Some?
           && Tracked(FindColumn(uni, cs[i].column, rest).value) == Tracked(first)
  {
    hide *;
    NoColumnChange(uni, id, d, DropAt(cs, i), cs);
    ColumnsExact(uni, DropAt(cs, i), cs);
    DroppedView(uni, cs, i);
    FindIsView(uni, cs[i].column, cs);
    DroppedName(uni, cs, i, Normalize(uni, cs[i].column));
  }

  /** The first columns of the other names are not moved by a drop. */
  lemma {:induction false} ViewElsewhere(uni: Unicode, cs: seq<ColumnEntry>, i: nat, n: string)
    requires i < |cs| && n != Normalize(uni, cs[i].column)
    ensures n in ColumnView(uni, DropAt(cs, i)) <==> n in ColumnView(uni, cs)
    ensures n in ColumnView(uni, cs) ==> ColumnView(uni, DropAt(cs, i))[n] == ColumnView(uni, cs)[n]
    decreases |cs|
  {
    hide Normalize, Tracked;
    if i == 0 {
      assert DropAt(cs, 0) == cs[1..];
    } else {
      var rest := DropAt(cs, i);
      assert cs[1..][i - 1] == cs[i];
      ViewElsewhere(uni, cs[1..], i - 1, n);
      assert rest[0] == cs[0] && rest[1..] == DropAt(cs[1..], i - 1);
    }
  }

  // ----- snapshots -----

  /** What the report tracks of a dataset, every column kept. */
  datatype DatasetFacts = DatasetFacts(
    id: string, approxRowCount: Option<nat>, bytes: Option<nat>, description: Option<string>, rightsClass: RightsClass,
    columns: multiset<(string, TrackedColumn)>)

  function FactsOfDataset(uni: Unicode, d: DatasetManifest, cs: seq<ColumnEntry>): DatasetFacts {
    DatasetFacts(d.id, d.approxRowCount, d.bytes, d.description, d.rightsClass, FactsOfColumns(uni, cs))
  }

  function FactsOfDatasets(uni: Unicode, ds: seq<DatasetManifest>, cs: seq<ColumnEntry>): multiset<DatasetFacts> {
    if ds == [] then multiset{}
    else multiset{FactsOfDataset(uni, ds[0], DatasetColumns(ds[0].id, cs))} + FactsOfDatasets(uni, ds[1..], cs)
  }

  /** What the report tracks of a snapshot, every dataset and every column kept. */
  function FactsOf(uni: Unicode, s: Snapshot): multiset<DatasetFacts> {
    FactsOfDatasets(uni, s.datasets, s.columns)
  }

  /** No two datasets of one id, and no two columns of one name in a dataset. */
  predicate DistinctIds(ds: seq<DatasetManifest>) {
    forall i, j :: 0 <= i < j < |ds| ==> ds[i].id != ds[j].id
  }

  predicate DistinctSnapshot(uni: Unicode, s: Snapshot) {
    && DistinctIds(s.datasets)
    && (forall d :: d in s.datasets ==> DistinctNames(uni, DatasetColumns(d.id, s.columns)))
  }

  lemma {:induction false} FactsMembers(uni: Unicode, ds: seq<DatasetManifest>, cs: seq<ColumnEntry>, f: DatasetFacts)
    requires DistinctIds(ds)
    ensures FactsOfDatasets(uni, ds, cs)[f]
         == if exists d :: d in ds && f == FactsOfDataset(uni, d, DatasetColumns(d.id, cs)) then 1 else 0
  {
    hide FactsOfColumns, DatasetColumns;
    if ds != [] {
      var first := FactsOfDataset(uni, ds[0], DatasetColumns(ds[0].id, cs));
      assert DistinctIds(ds[1..]) by {
        assert forall i :: 0 <= i < |ds[1..]| ==> ds[1..][i] == ds[i + 1];
      }
      FactsMembers(uni, ds[1..], cs, f);
      assert forall d :: d in ds <==> d == ds[0] || d in ds[1..];
      if f == first {
        assert ds[0] in ds;
        forall d | d in ds[1..]
          ensures d.id != f.id
        {
          var i :| 0 <= i < |ds[1..]| && ds[1..][i] == d;
          assert d == ds[i + 1];
        }
      }
    }
  }

  /** With distinct ids every dataset is in the map. */
  lemma MapMembers(ds: seq<DatasetManifest>, d: DatasetManifest)
    requires DistinctIds(ds)
    ensures d in ds <==> d.id in DatasetMap(ds) && DatasetMap(ds)[d.id] == d
  {
    if d in ds {
      var e := DatasetMap(ds)[d.id];
      assert e in ds && e.id == d.id;
      var i :| 0 <= i < |ds| && ds[i] == d;
      var j :| 0 <= j < |ds| && ds[j] == e;
      hide DatasetMap;
      assert !(i < j) && !(j < i);
    }
  }

  /** The facts of one dataset of the view, where its columns' names are distinct. */
  function FactsOfView(id: string, v: DatasetView): DatasetFacts {
    DatasetFacts(id, v.approxRowCount, v.bytes, v.description, v.rightsClass, Listed(v.columns))
  }

  lemma ViewFacts(uni: Unicode, s: Snapshot, f: DatasetFacts)
    requires DistinctSnapshot(uni, s)
    ensures FactsOf(uni, s)[f] == if f.id in ViewOf(uni, s) && f == FactsOfView(f.id, ViewOf(uni, s)[f.id]) then 1 else 0
  {
    var dm := DatasetMap(s.datasets);
    assert FactsOf(uni, s) == FactsOfDatasets(uni, s.datasets, s.columns);
    FactsMembers(uni, s.datasets, s.columns, f);
    ViewAt(uni, s, f.id);
    hide FactsOfDatasets, FactsOfColumns, DatasetColumns, ViewOf, DatasetMap, DistinctNames, DistinctIds,
      ColumnView, FactsOf;
    if f.id in dm {
      MapMembers(s.datasets, dm[f.id]);
      DistinctFacts(uni, DatasetColumns(f.id, s.columns));
      assert FactsOfDataset(uni, dm[f.id], DatasetColumns(f.id, s.columns)) == FactsOfView(f.id, ViewOf(uni, s)[f.id]);
    }
    if d :| d in s.datasets && f == FactsOfDataset(uni, d, DatasetColumns(d.id, s.columns)) {
      MapMembers(s.datasets, d);
    }
  }

  lemma SameDatasetView(id: string, v: DatasetView, w: DatasetView)
    requires FactsOfView(id, v) == FactsOfView(id, w)
    ensures v == w
  {
    SameListed(v.columns, w.columns);
  }

  /** Equal facts are equal views. */
  lemma FactsAreViews(uni: Unicode, a: Snapshot, b: Snapshot)
    requires DistinctSnapshot(uni, a) && DistinctSnapshot(uni, b)
    ensures FactsOf(uni, a) == FactsOf(uni, b) <==> ViewOf(uni, a) == ViewOf(uni, b)
  {
    hide FactsOf, ViewOf, DistinctSnapshot, FactsOfView;
    if FactsOf(uni, a) == FactsOf(uni, b) {
      SameFactsSide(uni, a, b);
      SameFactsSide(uni, b, a);
      assert ViewOf(uni, a) == ViewOf(uni, b);
    }
    if ViewOf(uni, a) == ViewOf(uni, b) {
      forall f
        ensures FactsOf(uni, a)[f] == FactsOf(uni, b)[f]
      {
        ViewFacts(uni, a, f);
        ViewFacts(uni, b, f);
      }
      assert FactsOf(uni, a) == FactsOf(uni, b);
    }
  }

  lemma SameFactsSide(uni: Unicode, a: Snapshot, b: Snapshot)
    requires DistinctSnapshot(uni, a) && DistinctSnapshot(uni, b) && FactsOf(uni, a) == FactsOf(uni, b)
    ensures forall id :: id in ViewOf(uni, a) ==> id in ViewOf(uni, b) && ViewOf(uni, a)[id] == ViewOf(uni, b)[id]
  {
    hide FactsOf, ViewOf, DistinctSnapshot;
    forall id | id in ViewOf(uni, a)
      ensures id in ViewOf(uni, b) && ViewOf(uni, a)[id] == ViewOf(uni, b)[id]
    {
      var f := FactsOfView(id, ViewOf(uni, a)[id]);
      ViewFacts(uni, a, f);
      ViewFacts(uni, b, f);
      SameDatasetView(id, ViewOf(uni, a)[id], ViewOf(uni, b)[id]);
    }
  }

  lemma DistinctIsConsistent(uni: Unicode, s: Snapshot)
    requires DistinctSnapshot(uni, s)
    ensures ConsistentSnapshot(uni, s)
  {
    hide DatasetColumns, DistinctNames, Consistent;
    forall id | id in DatasetMap(s.datasets)
      ensures Consistent(uni, DatasetColumns(id, s.columns))
    {
      assert DatasetMap(s.datasets)[id] in s.datasets;
      DistinctAgree(uni, DatasetColumns(id, s.columns));
    }
  }

  /** Where ids and names are distinct on both sides, the report says "identical" exactly
      when the snapshots have the same datasets, each with the same tracked fields and the
      same columns, and, where both looked for them, the same relations. */
  lemma IdenticalMeansSame(uni: Unicode, base: Snapshot, target: Snapshot)
    requires DistinctSnapshot(uni, base) && DistinctSnapshot(uni, target)
    ensures DiffOf(uni, base, target).summary.isIdentical
       <==> FactsOf(uni, base) == FactsOf(uni, target) && RelationsAgree(base, target)
  {
    hide *;
    IdenticalIsExact(uni, base, target);
    DistinctIsConsistent(uni, base);
    FactsAreViews(uni, base, target);
  }

  // ----- the breaking flag -----

  /** Fewer columns of some name. */
  ghost predicate LosesColumn(uni: Unicode, bs: seq<ColumnEntry>, ts: seq<ColumnEntry>) {
    exists n :: CountNamed(uni, bs, n) > CountNamed(uni, ts, n)
  }

  /** A column of both sides that a consumer may trip over. */
  predicate BreaksPair(uni: Unicode, bs: seq<ColumnEntry>, ts: seq<ColumnEntry>) {
    exists b, t :: b in bs && t in ts && SameIdentifier(uni, b.column, t.column) && BreaksColumn(Tracked(b), Tracked(t))
  }

  ghost predicate LosesDataset(base: Snapshot, target: Snapshot) {
    exists d :: d in base.datasets && forall e :: e in target.datasets ==> e.id != d.id
  }

  /** A dataset gone, or a column of a dataset of both sides gone or broken. */
  ghost predicate Breaks(uni: Unicode, base: Snapshot, target: Snapshot) {
    || LosesDataset(base, target)
    || exists id :: id in DatasetMap(base.datasets) && id in DatasetMap(target.datasets)
                    && BreaksBetween(uni, DatasetColumns(id, base.columns), DatasetColumns(id, target.columns))
  }

  ghost predicate BreaksBetween(uni: Unicode, bs: seq<ColumnEntry>, ts: seq<ColumnEntry>) {
    LosesColumn(uni, bs, ts) || BreaksPair(uni, bs, ts)
  }

  lemma LostIsView(uni: Unicode, bs: seq<ColumnEntry>, ts: seq<ColumnEntry>)
    requires DistinctNames(uni, bs) && DistinctNames(uni, ts)
    ensures LosesColumn(uni, bs, ts) <==> !(ColumnView(uni, bs).Keys <= ColumnView(uni, ts).Keys)
  {
    DistinctIsCountedOnce(uni, bs);
    DistinctIsCountedOnce(uni, ts);
    hide CountNamed, ColumnView, DistinctNames;
    forall n
      ensures CountNamed(uni, bs, n) > CountNamed(uni, ts, n)
         <==> n in ColumnView(uni, bs).Keys && n !in ColumnView(uni, ts).Keys
    {
      CountIsView(uni, bs, n);
      CountIsView(uni, ts, n);
    }
  }

  lemma PairIsView(uni: Unicode, bs: seq<ColumnEntry>, ts: seq<ColumnEntry>)
    requires Consistent(uni, bs) && Consistent(uni, ts)
    ensures BreaksPair(uni, bs, ts)
       <==> exists n :: n in ColumnView(uni, bs) && n in ColumnView(uni, ts)
                        && BreaksColumn(ColumnView(uni, bs)[n], ColumnView(uni, ts)[n])
  {
    var v, w := ColumnView(uni, bs), ColumnView(uni, ts);
    hide ColumnView, BreaksColumn, Consistent, Tracked, Normalize;
    if b, t :| b in bs && t in ts && SameIdentifier(uni, b.column, t.column) && BreaksColumn(Tracked(b), Tracked(t)) {
      ConsistentView(uni, bs, b);
      ConsistentView(uni, ts, t);
      var n := Normalize(uni, b.column);
      assert n in v && n in w && BreaksColumn(v[n], w[n]);
    }
    if n :| n in v && n in w && BreaksColumn(v[n], w[n]) {
      ViewKeys(uni, bs, n);
      ViewKeys(uni, ts, n);
      var b :| b in bs && Normalize(uni, b.column) == n && Tracked(b) == v[n];
      var t :| t in ts && Normalize(uni, t.column) == n && Tracked(t) == w[n];
      assert SameIdentifier(uni, b.column, t.column);
    }
  }

  lemma BreaksBetweenIsView(uni: Unicode, bs: seq<ColumnEntry>, ts: seq<ColumnEntry>)
    requires DistinctNames(uni, bs) && DistinctNames(uni, ts)
    ensures BreaksBetween(uni, bs, ts) <==> BreaksColumns(ColumnView(uni, bs), ColumnView(uni, ts))
  {
    LostIsView(uni, bs, ts);
    DistinctAgree(uni, bs);
    DistinctAgree(uni, ts);
    PairIsView(uni, bs, ts);
    hide LosesColumn, BreaksPair, ColumnView, BreaksColumn, DistinctNames, Consistent;
  }

  /** Where ids and names are distinct on both sides, the breaking flag is set exactly when a
      dataset or a column is gone or a column breaks. */
  lemma BreakingMeansLoss(uni: Unicode, base: Snapshot, target: Snapshot)
    requires DistinctSnapshot(uni, base) && DistinctSnapshot(uni, target)
    ensures DiffOf(uni, base, target).summary.hasBreakingChanges <==> Breaks(uni, base, target)
  {
    hide *;
    DistinctIsConsistent(uni, base);
    BreakingIsExact(uni, base, target);
    BreaksIsView(uni, base, target);
  }

  lemma BreaksIsView(uni: Unicode, base: Snapshot, target: Snapshot)
    requires DistinctSnapshot(uni, base) && DistinctSnapshot(uni, target)
    ensures Breaks(uni, base, target) <==> BreaksView(ViewOf(uni, base), ViewOf(uni, target))
  {
    LostDataset(base, target);
    ViewKeysAre(uni, base);
    ViewKeysAre(uni, target);
    hide ViewOf, BreaksColumns, DatasetMap, DatasetColumns, BreaksBetween, LosesDataset, DistinctSnapshot;
    forall id | id in DatasetMap(base.datasets) && id in DatasetMap(target.datasets)
      ensures BreaksBetween(uni, DatasetColumns(id, base.columns), DatasetColumns(id, target.columns))
         <==> BreaksColumns(ViewOf(uni, base)[id].columns, ViewOf(uni, target)[id].columns)
    {
      CommonBreaks(uni, base, target, id);
    }
  }

  lemma CommonBreaks(uni: Unicode, base: Snapshot, target: Snapshot, id: string)
    requires DistinctSnapshot(uni, base) && DistinctSnapshot(uni, target)
    requires id in DatasetMap(base.datasets) && id in DatasetMap(target.datasets)
    ensures id in ViewOf(uni, base) && id in ViewOf(uni, target)
    ensures BreaksBetween(uni, DatasetColumns(id, base.columns), DatasetColumns(id, target.columns))
       <==> BreaksColumns(ViewOf(uni, base)[id].columns, ViewOf(uni, target)[id].columns)
  {
    assert DatasetMap(base.datasets)[id] in base.datasets && DatasetMap(target.datasets)[id] in target.datasets;
    assert DatasetMap(base.datasets)[id].id == id && DatasetMap(target.datasets)[id].id == id;
    hide ViewOf, BreaksColumns, DatasetMap, DatasetColumns, BreaksBetween, DistinctNames, DistinctIds, ColumnView;
    ViewAt(uni, base, id);
    ViewAt(uni, target, id);
    BreaksBetweenIsView(uni, DatasetColumns(id, base.columns), DatasetColumns(id, target.columns));
  }

  lemma LostDataset(base: Snapshot, target: Snapshot)
    ensures LosesDataset(base, target) <==> !(DatasetMap(base.datasets).Keys <= DatasetMap(target.datasets).Keys)
  {
    var bm, tm := DatasetMap(base.datasets), DatasetMap(target.datasets);
    assert forall id :: id in bm ==> bm[id].id == id && bm[id] in base.datasets;
    assert forall id :: id in tm ==> tm[id].id == id && tm[id] in target.datasets;
    assert forall d :: d in base.datasets ==> d.id in bm;
    assert forall d :: d in target.datasets ==> d.id in tm;
    hide DatasetMap;
    if id :| id in bm && id !in tm {
      assert bm[id] in base.datasets;
    }
  }

  // ----- patching -----

  /** Where the target's names are distinct, patching the base's columns with the report
      gives every column of the target. */
  lemma PatchGivesEveryColumn(uni: Unicode, bs: seq<ColumnEntry>, ts: seq<ColumnEntry>)
    requires Consistent(uni, bs) && DistinctNames(uni, ts)
    ensures var patched := PatchColumns(uni, ColumnView(uni, bs), Unmatched(uni, bs, ts), Modified(uni, bs, ts), Unmatched(uni, ts, bs));
      Listed(patched) == FactsOfColumns(uni, ts)
  {
    hide *;
    ColumnsPatch(uni, bs, ts);
    DistinctFacts(uni, ts);
  }

  /** Of snapshots with distinct names: of each dataset of both, the base's columns changed
      as the report says are the target's columns, each of them. */
  lemma PatchGivesTargetColumns(uni: Unicode, base: Snapshot, target: Snapshot, id: string)
    requires DistinctSnapshot(uni, base) && DistinctSnapshot(uni, target)
    requires id in DatasetMap(base.datasets) && id in DatasetMap(target.datasets)
    ensures id in ViewOf(uni, base)
    ensures var v, report := ViewOf(uni, base)[id], ReportFor(DiffOf(uni, base, target).datasetsModified, id);
      Listed((if report.Some? then PatchDataset(uni, v, report.value) else v).columns)
      == FactsOfColumns(uni, DatasetColumns(id, target.columns))
  {
    DistinctIsConsistent(uni, base);
    PatchGivesTarget(uni, base, target, id);
    assert DatasetMap(target.datasets)[id] in target.datasets && DatasetMap(target.datasets)[id].id == id;
    hide DiffOf, ViewOf, DatasetMap, DatasetColumns, FactsOfColumns, ReportFor, PatchDataset, DistinctNames,
      DistinctIds, ColumnView;
    ViewAt(uni, base, id);
    ViewAt(uni, target, id);
    DistinctFacts(uni, DatasetColumns(id, target.columns));
  }

  // ----- instances -----

  function UserColumn(name: string, ordinal: nat, dtype: DtypeClass): ColumnEntry {
    ColumnEntry("d", name, ordinal, "NUMBER", dtype, true, None, None, None, "")
  }

  function OneDataset(columns: seq<ColumnEntry>): Snapshot {
    Snapshot("s", [DatasetManifest("d", "", "", "", Internal, 0, 0, None, None, None, [], "")], columns, false, [])
  }

  lemma OneName(uni: Unicode)
    ensures Normalize(uni, "USER_ID") == Normalize(uni, "USERID")
  {
    assert "USER_ID" == "USER" + "_ID" && "USERID" == "USER" + "ID";
    assert Normalize(uni, "_ID") == Normalize(uni, "ID") by {
      assert "_ID"[0] == '_' && "_ID"[1..] == "ID";
    }
    hide Normalize;
    Ordinals.NormalizeConcat(uni, "USER", "_ID");
    Ordinals.NormalizeConcat(uni, "USER", "ID");
  }

  lemma SortedColumns(a: ColumnEntry, b: ColumnEntry)
    requires a.datasetId == "d" && b.datasetId == "d" && a.ordinal <= b.ordinal
    ensures DatasetColumns("d", [a, b]) == [a, b] && DatasetColumns("d", [a]) == [a]
  {
    assert [a, b][1..] == [b] && [b][1..] == [] && [a][1..] == [];
    assert OfDataset("d", [b]) == [b] && OfDataset("d", [a]) == [a];
    assert OfDataset("d", [a, b]) == [a] + [b] == [a, b];
    assert SortByOrdinal([]) == [];
    assert SortByOrdinal([b]) == InsertByOrdinal(b, []) == [b];
    assert SortByOrdinal([a]) == InsertByOrdinal(a, []) == [a];
    assert SortByOrdinal([a, b]) == InsertByOrdinal(a, [b]) == [a] + [b];
  }

  lemma ViewOfTwo(uni: Unicode, a: ColumnEntry, b: ColumnEntry)
    ensures ColumnView(uni, [a]) == map[Normalize(uni, a.column) := Tracked(a)]
    ensures Normalize(uni, a.column) == Normalize(uni, b.column) ==> ColumnView(uni, [a, b]) == ColumnView(uni, [a])
  {
    assert [a, b][1..] == [b] && [b][1..] == [] && [a][1..] == [];
    hide Normalize, Tracked;
    assert ColumnView(uni, []) == map[];
    assert ColumnView(uni, [a]) == map[][Normalize(uni, a.column) := Tracked(a)];
    assert ColumnView(uni, [a, b]) == ColumnView(uni, [b])[Normalize(uni, a.column) := Tracked(a)];
  }

  lemma OneDatasetMap(columns: seq<ColumnEntry>)
    ensures DatasetMap(OneDataset(columns).datasets) == map["d" := OneDataset(columns).datasets[0]]
    ensures OneDataset(columns).datasets == OneDataset([]).datasets && OneDataset(columns).columns == columns
  {
    var s := OneDataset(columns);
    assert s.datasets[..0] == [] && DatasetMap([]) == map[];
  }

  lemma OneDatasetView(uni: Unicode, columns: seq<ColumnEntry>)
    ensures ViewOf(uni, OneDataset(columns))
         == map["d" := ViewOfDataset(uni, OneDataset([]).datasets[0], DatasetColumns("d", columns))]
    ensures ConsistentSnapshot(uni, OneDataset(columns)) <==> Consistent(uni, DatasetColumns("d", columns))
  {
    OneDatasetMap(columns);
    hide ColumnView, DatasetColumns, Consistent, DatasetMap;
  }

  /** An instance: a dataset with the columns USER_ID and USERID loses USERID. Two columns
      have become one, and the report says "identical" and "not breaking". */
  lemma DroppedSpelling(uni: Unicode)
    ensures var both, one := [UserColumn("USER_ID", 1, Number), UserColumn("USERID", 2, Number)], [UserColumn("USER_ID", 1, Number)];
      && |DatasetColumns("d", both)| == 2 && |DatasetColumns("d", one)| == 1
      && DiffOf(uni, OneDataset(both), OneDataset(one)).summary.isIdentical
      && !DiffOf(uni, OneDataset(both), OneDataset(one)).summary.hasBreakingChanges
  {
    var a, b := UserColumn("USER_ID", 1, Number), UserColumn("USERID", 2, Number);
    assert Tracked(a) == Tracked(b) && a.column == "USER_ID" && b.column == "USERID";
    OneName(uni);
    SortedColumns(a, b);
    ViewOfTwo(uni, a, b);
    OneDatasetView(uni, [a, b]);
    OneDatasetView(uni, [a]);
    NoRelations([a, b], [a]);
    TwoAgree(uni, [a, b]);
    hide ColumnView, DatasetColumns, Normalize, Tracked, UserColumn, OneDataset, DiffOf, BreaksView, ViewOf,
      ConsistentSnapshot, RelationsAgree;
    IdenticalIsExact(uni, OneDataset([a, b]), OneDataset([a]));
    BreakingIsExact(uni, OneDataset([a, b]), OneDataset([a]));
    NothingBreaks(ViewOf(uni, OneDataset([a])));
  }

  lemma NoRelations(a: seq<ColumnEntry>, b: seq<ColumnEntry>)
    ensures RelationsAgree(OneDataset(a), OneDataset(b))
  {
  }

  lemma TwoAgree(uni: Unicode, cs: seq<ColumnEntry>)
    requires |cs| == 2 && SameIdentifier(uni, cs[0].column, cs[1].column) && Tracked(cs[0]) == Tracked(cs[1])
    ensures Consistent(uni, cs)
  {
    hide Normalize, Tracked;
  }

  lemma NothingBreaks(v: View)
    ensures !BreaksView(v, v)
  {
  }

  /** An instance: a snapshot with a number USER_ID and a text USERID is reported as changed
      when compared with itself. */
  lemma SelfDiffFails(uni: Unicode)
    ensures var s := OneDataset([UserColumn("USER_ID", 1, Number), UserColumn("USERID", 2, StringClass)]);
      !DiffOf(uni, s, s).summary.isIdentical
  {
    var a, b := UserColumn("USER_ID", 1, Number), UserColumn("USERID", 2, StringClass);
    assert Tracked(a) != Tracked(b) && a.column == "USER_ID" && b.column == "USERID";
    OneName(uni);
    SortedColumns(a, b);
    OneDatasetView(uni, [a, b]);
    hide ColumnView, DatasetColumns, Normalize, Tracked, UserColumn, OneDataset, DiffOf, ViewOf, ConsistentSnapshot;
    SelfDiffIsIdentical(uni, OneDataset([a, b]));
    assert a in [a, b] && b in [a, b] && SameIdentifier(uni, a.column, b.column);
  }
}
