// The order in which logs are replayed, and how far a replay comes when one of them is
// not text.
module ReplayOrder {
  import opened Records
  import opened LogText
  import opened Utf8
  import opened StoreModel
  import opened StoreFields
  import opened Replay

  /** The tables are taken by the index that is their bit in the mask of loaded tables. */
  lemma TablesByIndex(t: Table)
    ensures |AllTables()| == 10 && Index(t) < 10 && AllTables()[Index(t)] == t
  {
  }

  lemma TableAt(i: nat)
    requires i < 10
    ensures Index(AllTables()[i]) == i && |AllTables()| == 10
  {
    assert i == 0 || i == 1 || i == 2 || i == 3 || i == 4 || i == 5 || i == 6 || i == 7 || i == 8 || i == 9;
  }

  /** Whether a table comes before the one whose log is not text. */
  predicate Before(u: Table, bad: Table) {
    Index(u) < Index(bad)
  }

  /** Every log before it is text, and it is not. */
  ghost predicate FirstUnreadable(logs: Files, bad: Table) {
    !IsUtf8(logs[bad]) && forall t: Table :: Before(t, bad) ==> IsUtf8(logs[t])
  }

  lemma UnreadableAt(logs: Files, bad: Table, i: nat)
    requires FirstUnreadable(logs, bad) && i <= Index(bad)
    ensures |AllTables()| == 10 && i < 10 && Index(AllTables()[i]) == i
    ensures i < Index(bad) ==> IsUtf8(logs[AllTables()[i]])
    ensures i == Index(bad) ==> AllTables()[i] == bad && !IsUtf8(logs[bad])
  {
    hide IsUtf8;
    TableAt(i);
    TablesByIndex(bad);
    assert i < Index(bad) ==> Before(AllTables()[i], bad);
  }

  lemma SameIndex(t: Table, u: Table)
    ensures t == u <==> Index(t) == Index(u)
    ensures Before(t, u) <==> Index(t) < Index(u)
  {
  }

  lemma {:induction false} ReplayFrom(c: Codec, logs: Files, m: Mem, bad: Table, i: nat, u: Table)
    requires FirstUnreadable(logs, bad) && i <= Index(bad)
    ensures |AllTables()| == 10 && i < 10
    ensures !ReplayInOrder(c, logs, m, AllTables()[i..]).2
    ensures ReplayInOrder(c, logs, m, AllTables()[i..]).0[u]
         == if i <= Index(u) < Index(bad) then PutAll(m[u], ValidRecords(c, u, logs[u])) else m[u]
    decreases Index(bad) - i
  {
    hide *;
    UnreadableAt(logs, bad, i);
    ReplayNext(c, logs, m, AllTables(), i);
    if i < Index(bad) {
      var t := AllTables()[i];
      SameIndex(t, u);
      ReplayOneAt(c, logs, m, t, u);
      ReplayFrom(c, logs, ReplayOne(c, logs, m, t), bad, i + 1, u);
    }
  }

  /** A replay that meets a log which is not text leaves every table before it with its
      records put, and that table and all after it as they were. */
  lemma ReplayStops(c: Codec, logs: Files, m: Mem, bad: Table, u: Table)
    requires FirstUnreadable(logs, bad)
    ensures !ReplayInOrder(c, logs, m, AllTables()).2
    ensures ReplayInOrder(c, logs, m, AllTables()).0[u]
         == if Before(u, bad) then PutAll(m[u], ValidRecords(c, u, logs[u])) else m[u]
  {
    hide *;
    ReplayFrom(c, logs, m, bad, 0, u);
    SameIndex(u, bad);
    assert AllTables()[0..] == AllTables();
  }
}
