// The ten tables of the local store, their records, and how a record enters a table.
module Records {
  import opened Prelude
  import opened Keys

  datatype Table =
    | Profiles | CatalogSnapshots | DatasetManifests | QueryPlans | QueryReceipts
    | PartitionMetadata | Exports | CostHistory | ReplayBundles | AuditLog

  /** One record of each table; `body` stands for the fields no lookup reads. */
  datatype Record =
    | Profile(id: string, body: string)
    | Snapshot(id: string, profileId: string, database: Option<string>, schema: Option<string>, time: nat, body: string)
    | Manifest(id: string, body: string)
    | Plan(id: string, body: string)
    | Receipt(id: string, planId: string, profileId: string, outcome: string, queryId: Option<string>, time: nat,
              body: string)
    | Partition(receiptId: string, index: nat, body: string)
    | Export(id: string, receiptId: string, time: nat, body: string)
    | Cost(id: string, profileId: string, time: nat, body: string)
    | Bundle(id: string, body: string)
    | Audit(id: string, time: nat, body: string)

  function TableOf(r: Record): Table {
    match r
    case Profile(_, _) => Profiles
    case Snapshot(_, _, _, _, _, _) => CatalogSnapshots
    case Manifest(_, _) => DatasetManifests
    case Plan(_, _) => QueryPlans
    case Receipt(_, _, _, _, _, _, _) => QueryReceipts
    case Partition(_, _, _) => PartitionMetadata
    case Export(_, _, _, _) => Exports
    case Cost(_, _, _, _) => CostHistory
    case Bundle(_, _) => ReplayBundles
    case Audit(_, _, _) => AuditLog
  }

  function KeyOf(r: Record): Key {
    if r.Partition? then Key(r.receiptId, r.index) else Key(r.id, 0)
  }

  /** Tables in which a later record replaces an earlier one; elsewhere the first
      record of a key stays. */
  predicate LastWins(t: Table) {
    t in {Profiles, DatasetManifests, QueryPlans, PartitionMetadata}
  }

  /** The upsert tables: compacted lazily and on demand. */
  predicate Compactable(t: Table) {
    t in {Profiles, DatasetManifests, QueryPlans}
  }

  type TableMap = map<Key, Record>

  function Put(m: TableMap, r: Record): TableMap {
    if LastWins(TableOf(r)) || KeyOf(r) !in m then m[KeyOf(r) := r] else m
  }

  function PutAll(m: TableMap, rs: seq<Record>): TableMap
    decreases |rs|
  {
    if rs == [] then m else PutAll(Put(m, rs[0]), rs[1..])
  }

  /** Records of table `t`, each under its own key. */
  predicate Keyed(t: Table, m: TableMap) {
    forall k :: k in m ==> KeyOf(m[k]) == k && TableOf(m[k]) == t
  }

  predicate AllOf(t: Table, rs: seq<Record>) {
    forall i :: 0 <= i < |rs| ==> TableOf(rs[i]) == t
  }

  lemma {:induction false} PutAllConcat(m: TableMap, a: seq<Record>, b: seq<Record>)
    ensures PutAll(m, a + b) == PutAll(PutAll(m, a), b)
    decreases |a|
  {
    if a == [] {
      assert a + b == b;
    } else {
      assert (a + b)[1..] == a[1..] + b;
      PutAllConcat(Put(m, a[0]), a[1..], b);
    }
  }

  lemma PutAllSnoc(m: TableMap, rs: seq<Record>, r: Record)
    ensures PutAll(m, rs + [r]) == Put(PutAll(m, rs), r)
  {
    PutAllConcat(m, rs, [r]);
    assert [r][1..] == [];
  }

  lemma {:induction false} PutAllKeyed(t: Table, m: TableMap, rs: seq<Record>)
    requires Keyed(t, m) && AllOf(t, rs)
    ensures Keyed(t, PutAll(m, rs))
    decreases |rs|
  {
    if rs != [] {
      PutAllKeyed(t, Put(m, rs[0]), rs[1..]);
    }
  }

  /** A table never holds more records than were put into it. */
  lemma {:induction false} PutAllSize(m: TableMap, rs: seq<Record>)
    ensures |PutAll(m, rs)| <= |m| + |rs|
    decreases |rs|
  {
    if rs != [] {
      PutSize(m, rs[0]);
      PutAllSize(Put(m, rs[0]), rs[1..]);
    }
  }

  lemma PutSize(m: TableMap, r: Record)
    ensures |m| <= |Put(m, r)| <= |m| + 1
  {
    var k := KeyOf(r);
    if k in m {
      assert m[k := r].Keys == m.Keys;
      assert |m[k := r]| == |m[k := r].Keys| == |m.Keys|;
    } else {
      assert m[k := r].Keys == m.Keys + {k};
      assert |m[k := r]| == |m[k := r].Keys| == |m.Keys| + 1;
    }
  }

  // ----- values in key order -----

  function ValuesAt(m: TableMap, ks: seq<Key>): (rs: seq<Record>)
    requires forall k :: k in ks ==> k in m
    ensures |rs| == |ks| && forall i :: 0 <= i < |ks| ==> rs[i] == m[ks[i]]
  {
    if ks == [] then [] else [m[ks[0]]] + ValuesAt(m, ks[1..])
  }

  /** `map.values()`: the canonical records of a table. */
  function Values(m: TableMap): (rs: seq<Record>)
    ensures |rs| == |m| == |SortedKeys(m.Keys)|
    ensures forall i :: 0 <= i < |rs| ==> SortedKeys(m.Keys)[i] in m && rs[i] == m[SortedKeys(m.Keys)[i]]
  {
    assert |m.Keys| == |m|;
    ValuesAt(m, SortedKeys(m.Keys))
  }

  /** Records put under new, distinct keys are simply added. */
  lemma {:induction false} PutAllDistinct(t: Table, m: TableMap, source: TableMap, ks: seq<Key>)
    requires Keyed(t, source) && (forall k :: k in ks ==> k in source && k !in m) && Ascending(ks)
    ensures PutAll(m, ValuesAt(source, ks)) == m + (map k | k in ks :: source[k])
    decreases |ks|
  {
    if ks != [] {
      var k := ks[0];
      assert k in ks && KeyOf(source[k]) == k;
      AscendingTail(ks);
      PutAllDistinct(t, m[k := source[k]], source, ks[1..]);
      assert Put(m, source[k]) == m[k := source[k]];
      assert ValuesAt(source, ks)[1..] == ValuesAt(source, ks[1..]);
      hide *;
      RestrictStep(m, source, ks);
    }
  }

  lemma AscendingTail(ks: seq<Key>)
    requires ks != [] && Ascending(ks)
    ensures Ascending(ks[1..]) && ks[0] !in ks[1..]
    ensures forall k :: k in ks <==> k == ks[0] || k in ks[1..]
  {
    if ks[0] in ks[1..] {
      var i :| 0 <= i < |ks[1..]| && ks[1..][i] == ks[0];
      KeyLessTotal(ks[0], ks[i + 1]);
    }
  }

  lemma RestrictStep(m: TableMap, source: TableMap, ks: seq<Key>)
    requires ks != [] && forall k :: k in ks ==> k in source
    ensures forall k :: k in ks[1..] ==> k in source
    ensures m[ks[0] := source[ks[0]]] + (map x | x in ks[1..] :: source[x]) == m + (map x | x in ks :: source[x])
  {
    assert forall x :: x in ks <==> x == ks[0] || x in ks[1..];
  }

  /** Replaying the canonical records of a table into an empty one rebuilds it. */
  lemma CanonicalRebuilds(t: Table, m: TableMap)
    requires Keyed(t, m)
    ensures PutAll(map[], Values(m)) == m
  {
    var ks := SortedKeys(m.Keys);
    hide PutAll, SortedKeys, ValuesAt, Ascending;
    PutAllDistinct(t, map[], m, ks);
    assert map[] + (map k | k in ks :: m[k]) == m;
  }

  lemma ValuesAllOf(t: Table, m: TableMap)
    requires Keyed(t, m)
    ensures AllOf(t, Values(m))
  {
  }

  // ----- replay after an interruption -----

  function KeysOf(rs: seq<Record>): set<Key> {
    if rs == [] then {} else {KeyOf(rs[0])} + KeysOf(rs[1..])
  }

  lemma {:induction false} KeysOfConcat(a: seq<Record>, b: seq<Record>)
    ensures KeysOf(a + b) == KeysOf(a) + KeysOf(b)
  {
    if a == [] {
      assert a + b == b;
    } else {
      assert (a + b)[1..] == a[1..] + b;
      KeysOfConcat(a[1..], b);
    }
  }

  lemma {:induction false} LastWinsForgets(t: Table, m: TableMap, n: TableMap, rs: seq<Record>)
    requires LastWins(t) && AllOf(t, rs)
    requires forall k :: k !in KeysOf(rs) ==> (k in m <==> k in n) && (k in m ==> m[k] == n[k])
    ensures PutAll(m, rs) == PutAll(n, rs)
    decreases |rs|
  {
    if rs == [] {
      assert forall k :: k !in KeysOf(rs);
      assert m.Keys == n.Keys;
    } else {
      LastWinsForgets(t, Put(m, rs[0]), Put(n, rs[0]), rs[1..]);
    }
  }

  lemma {:induction false} LastWinsAgree(t: Table, m: TableMap, rs: seq<Record>)
    requires AllOf(t, rs)
    ensures forall k :: k !in KeysOf(rs) ==> (k in PutAll(m, rs) <==> k in m) && (k in m ==> PutAll(m, rs)[k] == m[k])
    decreases |rs|
  {
    if rs != [] {
      LastWinsAgree(t, Put(m, rs[0]), rs[1..]);
    }
  }

  lemma {:induction false} FirstWinsKeeps(t: Table, m: TableMap, rs: seq<Record>)
    requires !LastWins(t) && AllOf(t, rs)
    ensures forall k :: k in m ==> k in PutAll(m, rs) && PutAll(m, rs)[k] == m[k]
    ensures KeysOf(rs) <= PutAll(m, rs).Keys
    decreases |rs|
  {
    if rs != [] {
      FirstWinsKeeps(t, Put(m, rs[0]), rs[1..]);
    }
  }

  lemma {:induction false} FirstWinsIgnores(t: Table, m: TableMap, rs: seq<Record>)
    requires !LastWins(t) && AllOf(t, rs) && KeysOf(rs) <= m.Keys
    ensures PutAll(m, rs) == m
    decreases |rs|
  {
    if rs != [] {
      FirstWinsIgnores(t, m, rs[1..]);
    }
  }

  /** Replaying any prefix of a log into any target and then the whole log is one
      replay of the whole log, for every table. */
  lemma ReplaySurvivesInterruption(t: Table, m: TableMap, prefix: seq<Record>, rest: seq<Record>)
    requires AllOf(t, prefix + rest)
    ensures PutAll(PutAll(m, prefix), prefix + rest) == PutAll(m, prefix + rest)
  {
    var done := PutAll(m, prefix);
    assert forall i :: 0 <= i < |prefix| ==> prefix[i] == (prefix + rest)[i];
    assert forall i :: 0 <= i < |rest| ==> rest[i] == (prefix + rest)[|prefix| + i];
    assert AllOf(t, prefix) && AllOf(t, rest);
    if LastWins(t) {
      LastWinsAgree(t, m, prefix);
      KeysOfConcat(prefix, rest);
      LastWinsForgets(t, done, m, prefix + rest);
    } else {
      FirstWinsKeeps(t, m, prefix);
      FirstWinsIgnores(t, done, prefix);
      PutAllConcat(done, prefix, rest);
      PutAllConcat(m, prefix, rest);
    }
  }
}
