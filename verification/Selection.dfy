// Lookups: the in-memory answers (filter, sort or take the last maximum, in key
// order) and the SQL answers (WHERE, ORDER BY, LIMIT 1), and that they agree.
module Selection {
  import opened Prelude
  import opened Keys
  import opened Records

  datatype Query =
    | ById(table: Table, key: Key)
    | Everything(table: Table)
    | LatestSnapshot(profileId: string, database: Option<string>, schema: Option<string>)
    | Snapshots(profileId: string, database: Option<string>, schema: Option<string>)
    | LatestSuccessful(planId: string)
    | LatestByQueryId(profileId: string, queryId: string)
    | PartitionsFor(receiptId: string)
    | ExportsFor(receiptId: string)
    | CostFor(profileId: string)
    | AuditEvents

  function QueryTable(q: Query): Table {
    match q
    case ById(t, _) => t
    case Everything(t) => t
    case LatestSnapshot(_, _, _) => CatalogSnapshots
    case Snapshots(_, _, _) => CatalogSnapshots
    case LatestSuccessful(_) => QueryReceipts
    case LatestByQueryId(_, _) => QueryReceipts
    case PartitionsFor(_) => PartitionMetadata
    case ExportsFor(_) => Exports
    case CostFor(_) => CostHistory
    case AuditEvents => AuditLog
  }

  /** `None` asks for any value; `Some` for exactly that one. */
  predicate InScope(wanted: Option<string>, actual: Option<string>) {
    wanted.None? || actual == wanted
  }

  /** The WHERE clause. */
  predicate Matches(q: Query, r: Record) {
    match q
    case ById(_, key) => KeyOf(r) == key
    case Everything(_) => true
    case LatestSnapshot(p, d, s) => r.Snapshot? && r.profileId == p && InScope(d, r.database) && InScope(s, r.schema)
    case Snapshots(p, d, s) => r.Snapshot? && r.profileId == p && InScope(d, r.database) && InScope(s, r.schema)
    case LatestSuccessful(plan) => r.Receipt? && r.planId == plan && r.outcome == "ok"
    case LatestByQueryId(p, qid) => r.Receipt? && r.profileId == p && r.queryId == Some(qid)
    case PartitionsFor(id) => r.Partition? && r.receiptId == id
    case ExportsFor(id) => r.Export? && r.receiptId == id
    case CostFor(p) => r.Cost? && r.profileId == p
    case AuditEvents => true
  }

  function TimeOf(r: Record): nat {
    match r
    case Snapshot(_, _, _, _, time, _) => time
    case Receipt(_, _, _, _, _, time, _) => time
    case Export(_, _, time, _) => time
    case Cost(_, _, time, _) => time
    case Audit(_, time, _) => time
    case _ => 0
  }

  // ----- orders -----

  datatype Order = ByKey | NewestFirst | NewestFirstThenId | OldestFirst

  /** The ORDER BY clause. */
  function OrderOf(q: Query): Order {
    match q
    case LatestSnapshot(_, _, _) => NewestFirst
    case Snapshots(_, _, _) => NewestFirst
    case LatestSuccessful(_) => NewestFirst
    case LatestByQueryId(_, _) => NewestFirst
    case ExportsFor(_) => NewestFirstThenId
    case CostFor(_) => NewestFirstThenId
    case AuditEvents => OldestFirst
    case _ => ByKey
  }

  /** LIMIT 1. */
  predicate OnlyFirst(q: Query) {
    q.LatestSnapshot? || q.LatestSuccessful? || q.LatestByQueryId?
  }

  predicate Precedes(o: Order, a: Record, b: Record) {
    match o
    case ByKey => KeyLess(KeyOf(a), KeyOf(b))
    case NewestFirst => TimeOf(a) > TimeOf(b) || (TimeOf(a) == TimeOf(b) && KeyLess(KeyOf(b), KeyOf(a)))
    case NewestFirstThenId => TimeOf(a) > TimeOf(b) || (TimeOf(a) == TimeOf(b) && KeyLess(KeyOf(a), KeyOf(b)))
    case OldestFirst => TimeOf(a) < TimeOf(b) || (TimeOf(a) == TimeOf(b) && KeyLess(KeyOf(a), KeyOf(b)))
  }

  lemma PrecedesTotal(o: Order, a: Record, b: Record)
    ensures Precedes(o, a, b) || KeyOf(a) == KeyOf(b) || Precedes(o, b, a)
    ensures !(Precedes(o, a, b) && Precedes(o, b, a)) && !Precedes(o, a, a)
  {
    KeyLessTotal(KeyOf(a), KeyOf(b));
    KeyLessTotal(KeyOf(a), KeyOf(a));
  }

  lemma PrecedesTransitive(o: Order, a: Record, b: Record, c: Record)
    requires Precedes(o, a, b) && Precedes(o, b, c)
    ensures Precedes(o, a, c)
  {
    if KeyLess(KeyOf(a), KeyOf(b)) && KeyLess(KeyOf(b), KeyOf(c)) {
      KeyLessTransitive(KeyOf(a), KeyOf(b), KeyOf(c));
    }
    if KeyLess(KeyOf(b), KeyOf(a)) && KeyLess(KeyOf(c), KeyOf(b)) {
      KeyLessTransitive(KeyOf(c), KeyOf(b), KeyOf(a));
    }
  }

  predicate Ordered(o: Order, rs: seq<Record>) {
    forall i, j :: 0 <= i < j < |rs| ==> Precedes(o, rs[i], rs[j])
  }

  predicate DistinctKeys(rs: seq<Record>) {
    forall i, j :: 0 <= i < j < |rs| ==> KeyOf(rs[i]) != KeyOf(rs[j])
  }

  /** Elements in a given order are in one sequence only. */
  lemma {:induction false} OrderedUnique(o: Order, a: seq<Record>, b: seq<Record>)
    requires Ordered(o, a) && Ordered(o, b) && forall r :: r in a <==> r in b
    ensures a == b
    decreases |a|
  {
    assert (a != [] ==> a[0] in a) && (b != [] ==> b[0] in b);
    if a != [] {
      HeadUnique(o, a, b);
      var x := a[0];
      forall r
        ensures r in a[1..] <==> r in b[1..]
      {
        TailWithoutHead(o, a, r);
        TailWithoutHead(o, b, r);
      }
      OrderedUnique(o, a[1..], b[1..]);
      assert a == [x] + a[1..] && b == [x] + b[1..];
    }
  }

  lemma HeadUnique(o: Order, a: seq<Record>, b: seq<Record>)
    requires a != [] && b != [] && Ordered(o, a) && Ordered(o, b) && forall r :: r in a <==> r in b
    ensures a[0] == b[0]
  {
    assert a[0] in a && b[0] in b;
    var i :| 0 <= i < |b| && b[i] == a[0];
    var j :| 0 <= j < |a| && a[j] == b[0];
    PrecedesTotal(o, a[0], b[0]);
  }

  lemma TailWithoutHead(o: Order, a: seq<Record>, r: Record)
    requires a != [] && Ordered(o, a)
    ensures r in a[1..] <==> r in a && r != a[0]
  {
    PrecedesTotal(o, a[0], a[0]);
    if r in a[1..] {
      var i :| 0 <= i < |a[1..]| && a[1..][i] == r;
      assert Precedes(o, a[0], a[i + 1]);
    }
  }

  // ----- sorting -----

  function InsertBy(o: Order, r: Record, sorted: seq<Record>): (out: seq<Record>)
    ensures forall x :: x in out <==> x == r || x in sorted
  {
    if sorted == [] || Precedes(o, r, sorted[0]) then [r] + sorted
    else [sorted[0]] + InsertBy(o, r, sorted[1..])
  }

  function SortBy(o: Order, rs: seq<Record>): (out: seq<Record>)
    ensures forall x :: x in out <==> x in rs
  {
    if rs == [] then [] else InsertBy(o, rs[0], SortBy(o, rs[1..]))
  }

  lemma {:induction false} InsertByOrdered(o: Order, r: Record, sorted: seq<Record>)
    requires Ordered(o, sorted) && forall x :: x in sorted ==> KeyOf(x) != KeyOf(r)
    ensures Ordered(o, InsertBy(o, r, sorted))
    decreases |sorted|
  {
    if sorted != [] {
      var head, tail := sorted[0], sorted[1..];
      assert head in sorted;
      PrecedesTotal(o, r, head);
      if Precedes(o, r, head) {
        forall x | x in sorted
          ensures Precedes(o, r, x)
        {
          var i :| 0 <= i < |sorted| && sorted[i] == x;
          if i > 0 {
            PrecedesTransitive(o, r, head, x);
          }
        }
        PushOrdered(o, r, sorted);
      } else {
        InsertByOrdered(o, r, tail);
        forall x | x in InsertBy(o, r, tail)
          ensures Precedes(o, head, x)
        {
          if x in tail {
            var i :| 0 <= i < |tail| && tail[i] == x;
            assert sorted[i + 1] == x;
          }
        }
        PushOrdered(o, head, InsertBy(o, r, tail));
      }
    }
  }

  lemma PushOrdered(o: Order, r: Record, rs: seq<Record>)
    requires Ordered(o, rs) && forall x :: x in rs ==> Precedes(o, r, x)
    ensures Ordered(o, [r] + rs)
  {
    var out := [r] + rs;
    forall i, j | 0 <= i < j < |out|
      ensures Precedes(o, out[i], out[j])
    {
      assert out[j] == rs[j - 1] && rs[j - 1] in rs;
    }
  }

  lemma {:induction false} SortByOrdered(o: Order, rs: seq<Record>)
    requires DistinctKeys(rs)
    ensures Ordered(o, SortBy(o, rs))
    decreases |rs|
  {
    if rs != [] {
      SortByOrdered(o, rs[1..]);
      forall x | x in SortBy(o, rs[1..])
        ensures KeyOf(x) != KeyOf(rs[0])
      {
        var i :| 0 <= i < |rs[1..]| && rs[1..][i] == x;
        assert rs[i + 1] == x;
      }
      InsertByOrdered(o, rs[0], SortBy(o, rs[1..]));
    }
  }

  // ----- filtering the values of a table -----

  function Filter(q: Query, rs: seq<Record>): (out: seq<Record>)
    ensures forall x :: x in out <==> x in rs && Matches(q, x)
  {
    if rs == [] then [] else (if Matches(q, rs[0]) then [rs[0]] else []) + Filter(q, rs[1..])
  }

  lemma {:induction false} FilterOrdered(q: Query, o: Order, rs: seq<Record>)
    requires Ordered(o, rs)
    ensures Ordered(o, Filter(q, rs))
    decreases |rs|
  {
    if rs != [] {
      FilterOrdered(q, o, rs[1..]);
      if Matches(q, rs[0]) {
        forall x | x in Filter(q, rs[1..])
          ensures Precedes(o, rs[0], x)
        {
          var i :| 0 <= i < |rs[1..]| && rs[1..][i] == x;
          assert rs[i + 1] == x;
        }
        PushOrdered(o, rs[0], Filter(q, rs[1..]));
      }
    }
  }

  lemma OrderedDistinct(o: Order, rs: seq<Record>)
    requires Ordered(o, rs)
    ensures o == ByKey ==> DistinctKeys(rs)
  {
    forall i, j | 0 <= i < j < |rs| && o == ByKey
      ensures KeyOf(rs[i]) != KeyOf(rs[j])
    {
      KeyLessTotal(KeyOf(rs[i]), KeyOf(rs[j]));
    }
  }

  lemma ValuesOrdered(t: Table, m: TableMap)
    requires Keyed(t, m)
    ensures Ordered(ByKey, Values(m))
    ensures forall r :: r in Values(m) <==> r in m.Values
  {
    var ks := SortedKeys(m.Keys);
    forall r | r in m.Values
      ensures r in Values(m)
    {
      var k :| k in m && m[k] == r;
      assert k in ks;
      var i :| 0 <= i < |ks| && ks[i] == k;
      assert Values(m)[i] == r;
    }
    forall r | r in Values(m)
      ensures r in m.Values
    {
      var i :| 0 <= i < |Values(m)| && Values(m)[i] == r;
      assert m[ks[i]] == r;
    }
  }

  // ----- the last maximum -----

  /** `max_by`: a later element replaces the best unless it is strictly smaller.
      Receipts compare by time alone, snapshots by time and id. */
  predicate Replaces(q: Query, best: Record, r: Record) {
    if q.LatestSnapshot? then !Precedes(NewestFirst, best, r) else TimeOf(r) >= TimeOf(best)
  }

  function MaxBy(q: Query, best: Option<Record>, rs: seq<Record>): Option<Record>
    decreases |rs|
  {
    if rs == [] then best
    else MaxBy(q, if best.None? || Replaces(q, best.value, rs[0]) then Some(rs[0]) else best, rs[1..])
  }

  /** Over rows in key order the last maximum is the first row in newest-first order:
      among equal times the greatest id. */
  lemma {:induction false} MaxByIsNewest(q: Query, best: Option<Record>, rs: seq<Record>)
    requires Ordered(ByKey, rs)
    requires best.Some? ==> forall r :: r in rs ==> KeyLess(KeyOf(best.value), KeyOf(r))
    ensures MaxBy(q, best, rs).None? <==> best.None? && rs == []
    ensures MaxBy(q, best, rs).Some? ==>
              var top := MaxBy(q, best, rs).value;
              && (top in rs || best == Some(top))
              && (forall r :: r in rs && r != top ==> Precedes(NewestFirst, top, r))
              && (best.Some? && best.value != top ==> Precedes(NewestFirst, top, best.value))
    decreases |rs|
  {
    if rs != [] {
      var r, tail := rs[0], rs[1..];
      var next := if best.None? || Replaces(q, best.value, r) then Some(r) else best;
      forall x | x in tail
        ensures KeyLess(KeyOf(r), KeyOf(x)) && KeyLess(KeyOf(next.value), KeyOf(x))
      {
        var i :| 0 <= i < |tail| && tail[i] == x;
        assert rs[i + 1] == x && rs[i + 1] in rs && Precedes(ByKey, rs[0], rs[i + 1]);
      }
      MaxByIsNewest(q, next, tail);
      var top := MaxBy(q, next, tail).value;
      assert r in rs;
      if best.Some? {
        KeyLessTotal(KeyOf(best.value), KeyOf(r));
        PrecedesTotal(NewestFirst, best.value, r);
        var loser := if next == best then r else best.value;
        if top != next.value {
          PrecedesTransitive(NewestFirst, top, next.value, loser);
        }
      }
    }
  }

  // ----- the two answers -----

  /** The in-memory answer. */
  function MemAnswer(q: Query, m: TableMap): seq<Record> {
    var rows := Filter(q, Values(m));
    if q.ById? then (if q.key in m then [m[q.key]] else [])
    else if OnlyFirst(q) then (match MaxBy(q, None, rows) case None => [] case Some(r) => [r])
    else if OrderOf(q) == ByKey then rows
    else SortBy(OrderOf(q), rows)
  }

  /** The SQL answer over a set of rows: all the matching rows in the statement's
      order, or the first of them. */
  ghost predicate IsSqlAnswer(q: Query, rows: set<Record>, answer: seq<Record>) {
    exists full: seq<Record> ::
      && Ordered(OrderOf(q), full)
      && (forall r :: r in full <==> r in rows && Matches(q, r))
      && answer == if OnlyFirst(q) && full != [] then [full[0]] else full
  }

  /** A SELECT has one answer. */
  lemma SqlAnswerUnique(q: Query, rows: set<Record>, a: seq<Record>, b: seq<Record>)
    requires IsSqlAnswer(q, rows, a) && IsSqlAnswer(q, rows, b)
    ensures a == b
  {
    var x: seq<Record> :| Ordered(OrderOf(q), x) && (forall r :: r in x <==> r in rows && Matches(q, r))
                 && a == if OnlyFirst(q) && x != [] then [x[0]] else x;
    var y: seq<Record> :| Ordered(OrderOf(q), y) && (forall r :: r in y <==> r in rows && Matches(q, r))
                 && b == if OnlyFirst(q) && y != [] then [y[0]] else y;
    OrderedUnique(OrderOf(q), x, y);
  }

  /** Any ordered listing of the matching rows gives the SQL answer. */
  lemma ListingIsAnswer(q: Query, rows: set<Record>, full: seq<Record>)
    requires Ordered(OrderOf(q), full) && forall r :: r in full <==> r in rows && Matches(q, r)
    ensures IsSqlAnswer(q, rows, if OnlyFirst(q) && full != [] then [full[0]] else full)
  {
  }

  /** The matching values in key order, and sorted. */
  lemma SortedRows(q: Query, t: Table, m: TableMap)
    requires Keyed(t, m)
    ensures Ordered(ByKey, Filter(q, Values(m)))
    ensures forall o :: Ordered(o, SortBy(o, Filter(q, Values(m))))
    ensures forall r :: r in Filter(q, Values(m)) <==> r in m.Values && Matches(q, r)
  {
    ValuesOrdered(t, m);
    FilterOrdered(q, ByKey, Values(m));
    OrderedDistinct(ByKey, Filter(q, Values(m)));
    forall o
      ensures Ordered(o, SortBy(o, Filter(q, Values(m))))
    {
      SortByOrdered(o, Filter(q, Values(m)));
    }
  }

  lemma LatestAnswer(q: Query, t: Table, m: TableMap)
    requires Keyed(t, m) && OnlyFirst(q)
    ensures IsSqlAnswer(q, m.Values, MemAnswer(q, m))
  {
    var rows := Filter(q, Values(m));
    var full := SortBy(NewestFirst, rows);
    var top := MaxBy(q, None, rows);
    assert MemAnswer(q, m) == match top case None => [] case Some(r) => [r];
    assert OrderOf(q) == NewestFirst;
    SortedRows(q, t, m);
    MaxByIsNewest(q, None, rows);
    hide *;
    EmptyRows(rows);
    EmptyRows(full);
    ListingIsAnswer(q, m.Values, full);
    if full != [] {
      FirstIsNewest(full, top.value);
    }
  }

  lemma EmptyRows(rows: seq<Record>)
    ensures rows == [] <==> forall r :: r !in rows
  {
    if rows != [] {
      assert rows[0] in rows;
    }
  }

  /** The in-memory lookups give the SQL answers, ties included. */
  lemma MemAnswerIsSqlAnswer(q: Query, t: Table, m: TableMap)
    requires Keyed(t, m)
    ensures IsSqlAnswer(q, m.Values, MemAnswer(q, m))
  {
    hide Filter, SortBy, IsSqlAnswer, Ordered, Matches, MaxBy, Values, Keyed;
    SortedRows(q, t, m);
    if OnlyFirst(q) {
      LatestAnswer(q, t, m);
    } else {
      if q.ById? {
        ByIdRows(q, t, m);
      }
      var rows := Filter(q, Values(m));
      ListingIsAnswer(q, m.Values, if OrderOf(q) == ByKey then rows else SortBy(OrderOf(q), rows));
    }
  }

  lemma FirstIsNewest(full: seq<Record>, top: Record)
    requires full != [] && Ordered(NewestFirst, full) && top in full
    requires forall r :: r in full && r != top ==> Precedes(NewestFirst, top, r)
    ensures full[0] == top
  {
    var i :| 0 <= i < |full| && full[i] == top;
    assert full[0] in full;
    PrecedesTotal(NewestFirst, full[0], top);
  }

  lemma ByIdMembers(q: Query, t: Table, m: TableMap, r: Record)
    requires q.ById? && Keyed(t, m)
    ensures r in m.Values && Matches(q, r) <==> r in MemAnswer(q, m)
  {
  }

  lemma ByIdRows(q: Query, t: Table, m: TableMap)
    requires q.ById? && Keyed(t, m)
    ensures Filter(q, Values(m)) == MemAnswer(q, m)
  {
    assert Ordered(ByKey, MemAnswer(q, m));
    SortedRows(q, t, m);
    hide *;
    forall r
      ensures r in Filter(q, Values(m)) <==> r in MemAnswer(q, m)
    {
      ByIdMembers(q, t, m, r);
    }
    OrderedUnique(ByKey, Filter(q, Values(m)), MemAnswer(q, m));
  }

  /** `latest_catalog_snapshot` is the head of `catalog_snapshots` for the same scope. */
  lemma LatestIsHead(p: string, d: Option<string>, s: Option<string>, m: TableMap)
    requires Keyed(CatalogSnapshots, m)
    ensures MemAnswer(LatestSnapshot(p, d, s), m)
         == var all := MemAnswer(Snapshots(p, d, s), m); if all == [] then [] else [all[0]]
  {
    var latest, list := LatestSnapshot(p, d, s), Snapshots(p, d, s);
    MemAnswerIsSqlAnswer(latest, CatalogSnapshots, m);
    MemAnswerIsSqlAnswer(list, CatalogSnapshots, m);
    var all := MemAnswer(list, m);
    SnapshotQueriesAgree(p, d, s, m, all);
    SqlAnswerUnique(latest, m.Values, MemAnswer(latest, m), if all == [] then [] else [all[0]]);
  }

  lemma SnapshotQueriesAgree(p: string, d: Option<string>, s: Option<string>, m: TableMap, all: seq<Record>)
    requires IsSqlAnswer(Snapshots(p, d, s), m.Values, all)
    ensures IsSqlAnswer(LatestSnapshot(p, d, s), m.Values, if all == [] then [] else [all[0]])
  {
    assert forall r :: Matches(Snapshots(p, d, s), r) == Matches(LatestSnapshot(p, d, s), r);
    assert Ordered(NewestFirst, all) && forall r :: r in all <==> r in m.Values && Matches(LatestSnapshot(p, d, s), r);
  }
}
