// Bounded retention: per scope, the newest records by (time, id) stay.
module Retention {
  import opened Prelude
  import opened Keys
  import opened Records
  import opened Selection

  datatype RetentionPolicy = RetentionPolicy(maxReceiptsPerProfile: Option<nat>, maxSnapshotsPerScope: Option<nat>)

  datatype Scope = Scope(profileId: string, database: Option<string>, schema: Option<string>)

  /** Receipts are grouped by profile, snapshots by profile, database and schema. */
  function ScopeOf(r: Record): Scope {
    match r
    case Receipt(_, _, p, _, _, _, _) => Scope(p, None, None)
    case Snapshot(_, p, d, s, _, _) => Scope(p, d, s)
    case _ => Scope("", None, None)
  }

  // ----- the specification: ranks -----

  /** The keys of the newer records of the same scope. */
  function Newer(m: TableMap, r: Record): set<Key> {
    set k | k in m && ScopeOf(m[k]) == ScopeOf(r) && Precedes(NewestFirst, m[k], r)
  }

  /** The records with fewer than `max` newer ones in their scope. */
  function Kept(m: TableMap, max: nat): TableMap {
    map k | k in m && |Newer(m, m[k])| < max :: m[k]
  }

  lemma SubsetSize<T>(a: set<T>, b: set<T>)
    requires a <= b
    ensures |a| <= |b| && (a != b ==> |a| < |b|)
  {
    assert b == a + (b - a);
    if a != b {
      var x :| x in b - a;
    }
  }

  /** Retaining again evicts nothing: what is newer than a kept record is kept. */
  lemma RetainTwice(t: Table, m: TableMap, max: nat)
    requires Keyed(t, m)
    ensures Kept(Kept(m, max), max) == Kept(m, max)
  {
    var kept := Kept(m, max);
    forall k | k in kept
      ensures Newer(kept, kept[k]) == Newer(m, m[k])
    {
      forall x | x in Newer(m, m[k])
        ensures x in kept
      {
        NewerOfNewer(m, m[x], m[k]);
        SubsetSize(Newer(m, m[x]), Newer(m, m[k]));
      }
    }
  }

  lemma NewerOfNewer(m: TableMap, a: Record, b: Record)
    requires ScopeOf(a) == ScopeOf(b) && Precedes(NewestFirst, a, b)
    ensures Newer(m, a) <= Newer(m, b)
  {
    forall k | k in Newer(m, a)
      ensures k in Newer(m, b)
    {
      PrecedesTransitive(NewestFirst, m[k], a, b);
    }
  }

  // ----- the algorithm: groups, newest first, and their tails -----

  function FilterScope(scope: Scope, rs: seq<Record>): (out: seq<Record>)
    ensures forall x :: x in out <==> x in rs && ScopeOf(x) == scope
  {
    if rs == [] then [] else (if ScopeOf(rs[0]) == scope then [rs[0]] else []) + FilterScope(scope, rs[1..])
  }

  lemma {:induction false} FilterScopeOrdered(scope: Scope, o: Order, rs: seq<Record>)
    requires Ordered(o, rs)
    ensures Ordered(o, FilterScope(scope, rs))
    decreases |rs|
  {
    if rs != [] {
      FilterScopeOrdered(scope, o, rs[1..]);
      if ScopeOf(rs[0]) == scope {
        forall x | x in FilterScope(scope, rs[1..])
          ensures Precedes(o, rs[0], x)
        {
          var i :| 0 <= i < |rs[1..]| && rs[1..][i] == x;
          assert rs[i + 1] == x;
        }
        PushOrdered(o, rs[0], FilterScope(scope, rs[1..]));
      }
    }
  }

  /** A listing of one scope's records, newest first. */
  ghost predicate IsGroup(m: TableMap, scope: Scope, g: seq<Record>) {
    Ordered(NewestFirst, g) && forall r :: r in g <==> r in m.Values && ScopeOf(r) == scope
  }

  /** The in-memory group: the scope's values in key order, sorted. */
  function Group(m: TableMap, scope: Scope): seq<Record> {
    SortBy(NewestFirst, FilterScope(scope, Values(m)))
  }

  lemma GroupIsGroup(t: Table, m: TableMap, scope: Scope)
    requires Keyed(t, m)
    ensures IsGroup(m, scope, Group(m, scope))
  {
    ValuesOrdered(t, m);
    FilterScopeOrdered(scope, ByKey, Values(m));
    OrderedDistinct(ByKey, FilterScope(scope, Values(m)));
    SortByOrdered(NewestFirst, FilterScope(scope, Values(m)));
  }

  /** The SQL group: the scope's rows picked in turn from one listing ordered by
      profile and then newest first. */
  predicate SqlOrdered(rs: seq<Record>) {
    forall i, j :: 0 <= i < j < |rs| ==>
      StringLess(ScopeOf(rs[i]).profileId, ScopeOf(rs[j]).profileId)
      || (ScopeOf(rs[i]).profileId == ScopeOf(rs[j]).profileId && Precedes(NewestFirst, rs[i], rs[j]))
  }

  lemma {:induction false} SqlGroupOrdered(scope: Scope, rs: seq<Record>)
    requires SqlOrdered(rs)
    ensures Ordered(NewestFirst, FilterScope(scope, rs))
    decreases |rs|
  {
    if rs != [] {
      SqlGroupOrdered(scope, rs[1..]);
      if ScopeOf(rs[0]) == scope {
        forall x | x in FilterScope(scope, rs[1..])
          ensures Precedes(NewestFirst, rs[0], x)
        {
          var i :| 0 <= i < |rs[1..]| && rs[1..][i] == x;
          assert rs[i + 1] == x;
          StringLessIrreflexive(scope.profileId);
        }
        PushOrdered(NewestFirst, rs[0], FilterScope(scope, rs[1..]));
      }
    }
  }

  /** Both backends list a scope alike. */
  lemma SqlGroupIsGroup(t: Table, m: TableMap, scope: Scope, rows: seq<Record>)
    requires Keyed(t, m) && SqlOrdered(rows) && forall r :: r in rows <==> r in m.Values
    ensures FilterScope(scope, rows) == Group(m, scope)
  {
    SqlGroupOrdered(scope, rows);
    GroupIsGroup(t, m, scope);
    OrderedUnique(NewestFirst, FilterScope(scope, rows), Group(m, scope));
  }

  // ----- a record's rank is its place in its group -----

  function KeySet(g: seq<Record>): set<Key> {
    set r | r in g :: KeyOf(r)
  }

  lemma {:induction false} KeySetSize(o: Order, g: seq<Record>)
    requires Ordered(o, g) && DistinctKeys(g)
    ensures |KeySet(g)| == |g|
    decreases |g|
  {
    if g != [] {
      var last, init := g[|g| - 1], g[..|g| - 1];
      KeySetSize(o, init);
      assert KeyOf(last) !in KeySet(init);
      assert KeySet(g) == KeySet(init) + {KeyOf(last)} by {
        assert g == init + [last];
      }
    } else {
      assert KeySet(g) == {};
    }
  }

  lemma GroupKeysDistinct(t: Table, m: TableMap, scope: Scope, g: seq<Record>)
    requires Keyed(t, m) && IsGroup(m, scope, g)
    ensures DistinctKeys(g)
  {
    forall i, j | 0 <= i < j < |g|
      ensures KeyOf(g[i]) != KeyOf(g[j])
    {
      assert g[i] in g && g[j] in g;
      PrecedesTotal(NewestFirst, g[i], g[i]);
      assert Precedes(NewestFirst, g[i], g[j]);
    }
  }

  lemma RankIsIndex(t: Table, m: TableMap, scope: Scope, g: seq<Record>, i: nat)
    requires Keyed(t, m) && IsGroup(m, scope, g) && i < |g|
    ensures |Newer(m, g[i])| == i
  {
    GroupKeysDistinct(t, m, scope, g);
    var before := g[..i];
    KeySetSize(NewestFirst, before);
    assert g[i] in g;
    forall k
      ensures k in Newer(m, g[i]) <==> k in KeySet(before)
    {
      if k in Newer(m, g[i]) {
        assert m[k] in g;
        var j :| 0 <= j < |g| && g[j] == m[k];
        PrecedesTotal(NewestFirst, g[i], g[j]);
        assert j < i;
        assert before[j] == m[k];
      }
      if k in KeySet(before) {
        var r :| r in before && KeyOf(r) == k;
        var j :| 0 <= j < i && before[j] == r;
        assert g[j] in g && Precedes(NewestFirst, g[j], g[i]);
      }
    }
    assert Newer(m, g[i]) == KeySet(before);
  }

  /** The keys past the first `max` of a group. */
  function Dropped(g: seq<Record>, max: nat): set<Key> {
    if |g| <= max then {} else KeySet(g[max..])
  }

  /** A group's tail is exactly the scope's records that are not kept, and as many as
      the surplus. */
  lemma DroppedAreNotKept(t: Table, m: TableMap, scope: Scope, g: seq<Record>, max: nat)
    requires Keyed(t, m) && IsGroup(m, scope, g)
    ensures forall k :: k in Dropped(g, max) <==> k in m && ScopeOf(m[k]) == scope && k !in Kept(m, max)
    ensures |Dropped(g, max)| == if |g| <= max then 0 else |g| - max
  {
    GroupKeysDistinct(t, m, scope, g);
    forall k
      ensures k in Dropped(g, max) <==> k in m && ScopeOf(m[k]) == scope && k !in Kept(m, max)
    {
      if k in m && ScopeOf(m[k]) == scope {
        assert m[k] in g;
        var i :| 0 <= i < |g| && g[i] == m[k];
        RankIsIndex(t, m, scope, g, i);
        if i >= max {
          assert g[max..][i - max] == m[k];
        }
      }
      if k in Dropped(g, max) {
        var r :| r in g[max..] && KeyOf(r) == k;
        var j :| 0 <= j < |g| - max && g[max..][j] == r;
        assert g[j + max] in g;
        RankIsIndex(t, m, scope, g, j + max);
      }
    }
    if |g| > max {
      KeySetSize(NewestFirst, g[max..]);
    }
  }

  /** Retention keeps, of each scope, the first `max` of its newest-first listing. */
  lemma KeptIsGroupPrefix(t: Table, m: TableMap, scope: Scope, g: seq<Record>, max: nat, i: nat)
    requires Keyed(t, m) && IsGroup(m, scope, g) && i < |g|
    ensures KeyOf(g[i]) in m
    ensures KeyOf(g[i]) in Kept(m, max) <==> i < max
  {
    assert g[i] in g;
    RankIsIndex(t, m, scope, g, i);
  }

  // ----- evicting -----

  function Scopes(m: TableMap): set<Scope> {
    set k | k in m :: ScopeOf(m[k])
  }

  /** Every key past the cap in some scope. */
  function Evicted(m: TableMap, max: nat): set<Key> {
    m.Keys - Kept(m, max).Keys
  }

  function WithoutReceipts(partitions: TableMap, evicted: set<Key>): TableMap {
    map k | k in partitions && Key(k.id, 0) !in evicted :: partitions[k]
  }

  lemma MinusSize<K, V>(m: map<K, V>, ids: set<K>)
    requires ids <= m.Keys
    ensures |m - ids| == |m| - |ids|
  {
    assert (m - ids).Keys == m.Keys - ids;
    assert |(m - ids).Keys| == |m - ids| && |m.Keys| == |m|;
  }

  lemma RemoveStep<K, V>(m: map<K, V>, ids: set<K>, left: set<K>, id: K)
    requires left <= ids <= m.Keys && id in left
    ensures m - (ids - left) - {id} == m - (ids - (left - {id}))
    ensures id in m - (ids - left)
    ensures |ids - (left - {id})| == |ids - left| + 1
  {
    assert ids - (left - {id}) == (ids - left) + {id};
  }

  /** The removal loop: each id present is removed and counted. */
  method RemoveAll<K(==), V>(m: map<K, V>, ids: set<K>) returns (kept: map<K, V>, removed: nat)
    requires ids <= m.Keys
    ensures kept == m - ids && removed == |m| - |kept|
  {
    kept, removed := m, 0;
    var left := ids;
    assert ids - left == {} && m - {} == m;
    while left != {}
      invariant left <= ids
      invariant kept == m - (ids - left)
      invariant removed == |ids - left|
      decreases left
    {
      var id :| id in left;
      RemoveStep(m, ids, left, id);
      if id in kept {
        kept := kept - {id};
        removed := removed + 1;
      }
      left := left - {id};
    }
    assert ids - left == ids;
    MinusSize(m, ids);
  }

  /** The grouping loop: scope by scope, the ids past the cap. */
  method CollectDropped(t: Table, m: TableMap, max: nat) returns (dropIds: set<Key>)
    requires Keyed(t, m)
    ensures dropIds == Evicted(m, max)
  {
    hide Kept, Group, Ordered, IsGroup, SortBy, KeyOf;
    var scopes := Scopes(m);
    dropIds := {};
    while scopes != {}
      invariant forall k :: k in dropIds <==> k in Evicted(m, max) && ScopeOf(m[k]) !in scopes
      decreases scopes
    {
      var scope :| scope in scopes;
      var records := Group(m, scope);
      GroupIsGroup(t, m, scope);
      DroppedAreNotKept(t, m, scope, records, max);
      if |records| > max {
        dropIds := dropIds + KeySet(records[max..]);
      }
      scopes := scopes - {scope};
    }
    assert forall k :: k in dropIds <==> k in Evicted(m, max);
  }

  /** `apply_retention_in_memory` for one table: collect, then remove. */
  method RetainTable(t: Table, m: TableMap, max: nat) returns (kept: TableMap, evictedKeys: set<Key>, evicted: nat)
    requires Keyed(t, m)
    ensures kept == Kept(m, max) && evictedKeys == Evicted(m, max)
    ensures evicted == |m| - |kept|
  {
    hide Kept, Evicted;
    EvictedRest(m, max);
    evictedKeys := CollectDropped(t, m, max);
    kept, evicted := RemoveAll(m, evictedKeys);
  }

  lemma EvictedRest(m: TableMap, max: nat)
    ensures Evicted(m, max) <= m.Keys && m - Evicted(m, max) == Kept(m, max)
  {
    hide Newer;
    assert (m - Evicted(m, max)).Keys == Kept(m, max).Keys;
  }

  lemma EvictedSize(m: TableMap, max: nat)
    ensures |Evicted(m, max)| == |m| - |Kept(m, max)|
  {
    EvictedRest(m, max);
    hide Kept, Evicted;
    MinusSize(m, Evicted(m, max));
  }
}
