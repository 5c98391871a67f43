// Primary keys and their order: the order in which a `BTreeMap` iterates and in
// which SQLite compares text.
module Keys {
  /** A record's key: an id, and a partition index (0 elsewhere). */
  datatype Key = Key(id: string, index: nat)

  /** Strings by code points. */
  predicate StringLess(a: string, b: string) {
    b != [] && (a == [] || a[0] < b[0] || (a[0] == b[0] && StringLess(a[1..], b[1..])))
  }

  lemma {:induction false} StringLessTotal(a: string, b: string)
    ensures StringLess(a, b) || a == b || StringLess(b, a)
    ensures !(StringLess(a, b) && StringLess(b, a)) && !StringLess(a, a)
  {
    if a != [] {
      if b != [] {
        StringLessTotal(a[1..], b[1..]);
        assert a == [a[0]] + a[1..] && b == [b[0]] + b[1..];
      } else {
        StringLessTotal(a[1..], b);
      }
      StringLessIrreflexive(a);
    }
  }

  lemma {:induction false} StringLessIrreflexive(a: string)
    ensures !StringLess(a, a)
  {
    if a != [] {
      StringLessIrreflexive(a[1..]);
    }
  }

  lemma {:induction false} StringLessTransitive(a: string, b: string, c: string)
    requires StringLess(a, b) && StringLess(b, c)
    ensures StringLess(a, c)
  {
    if a != [] && a[0] == b[0] == c[0] {
      StringLessTransitive(a[1..], b[1..], c[1..]);
    }
  }

  /** The order is by the first character in which two strings differ, a beginning first. */
  lemma {:induction false} StringLessMeans(a: string, b: string)
    ensures StringLess(a, b)
        <==> exists n :: 0 <= n <= |a| && n < |b| && a[..n] == b[..n] && (n == |a| || a[n] < b[n])
  {
    if b != [] && a != [] && a[0] == b[0] {
      StringLessMeans(a[1..], b[1..]);
      if StringLess(a[1..], b[1..]) {
        var n :| 0 <= n <= |a[1..]| && n < |b[1..]| && a[1..][..n] == b[1..][..n]
                 && (n == |a[1..]| || a[1..][n] < b[1..][n]);
        assert a[..n + 1] == [a[0]] + a[1..][..n] && b[..n + 1] == [b[0]] + b[1..][..n];
      }
      if n :| 0 <= n <= |a| && n < |b| && a[..n] == b[..n] && (n == |a| || a[n] < b[n]) {
        assert n > 0;
        assert a[1..][..n - 1] == a[..n][1..] && b[1..][..n - 1] == b[..n][1..];
      }
    } else if b != [] {
      assert a[..0] == b[..0];
    }
  }

  predicate KeyLess(a: Key, b: Key) {
    StringLess(a.id, b.id) || (a.id == b.id && a.index < b.index)
  }

  lemma KeyLessTotal(a: Key, b: Key)
    ensures KeyLess(a, b) || a == b || KeyLess(b, a)
    ensures !(KeyLess(a, b) && KeyLess(b, a)) && !KeyLess(a, a)
  {
    StringLessTotal(a.id, b.id);
    StringLessIrreflexive(a.id);
  }

  lemma KeyLessTransitive(a: Key, b: Key, c: Key)
    requires KeyLess(a, b) && KeyLess(b, c)
    ensures KeyLess(a, c)
  {
    if StringLess(a.id, b.id) && StringLess(b.id, c.id) {
      StringLessTransitive(a.id, b.id, c.id);
    }
  }

  // ----- iterating a map in key order -----

  lemma {:induction false} LeastKeyExists(s: set<Key>) returns (k: Key)
    requires s != {}
    ensures k in s && forall x :: x in s && x != k ==> KeyLess(k, x)
  {
    var y :| y in s;
    if s == {y} {
      k := y;
    } else {
      var z := LeastKeyExists(s - {y});
      KeyLessTotal(y, z);
      k := if KeyLess(y, z) then y else z;
      forall x | x in s && x != k
        ensures KeyLess(k, x)
      {
        if k == y && x != z {
          KeyLessTransitive(y, z, x);
        }
      }
    }
  }

  predicate IsLeast(k: Key, s: set<Key>) {
    k in s && forall x :: x in s && x != k ==> KeyLess(k, x)
  }

  lemma LeastUnique(k: Key, l: Key, s: set<Key>)
    requires IsLeast(k, s) && IsLeast(l, s)
    ensures k == l
  {
    KeyLessTotal(k, l);
  }

  function LeastKey(s: set<Key>): (k: Key)
    requires s != {}
    ensures IsLeast(k, s)
  {
    assert exists k :: IsLeast(k, s) by {
      var k := LeastKeyExists(s);
      assert IsLeast(k, s);
    }
    assert forall k, l :: IsLeast(k, s) && IsLeast(l, s) ==> k == l by {
      forall k, l | IsLeast(k, s) && IsLeast(l, s)
        ensures k == l
      {
        LeastUnique(k, l, s);
      }
    }
    var k :| k in s && IsLeast(k, s);
    k
  }

  predicate Ascending(ks: seq<Key>) {
    forall i, j :: 0 <= i < j < |ks| ==> KeyLess(ks[i], ks[j])
  }

  function SortedKeys(s: set<Key>): (ks: seq<Key>)
    ensures |ks| == |s|
    ensures forall k :: k in ks <==> k in s
    ensures Ascending(ks)
    decreases |s|
  {
    if s == {} then []
    else
      var k := LeastKey(s);
      var rest := SortedKeys(s - {k});
      assert forall i :: 0 <= i < |rest| ==> rest[i] in s - {k};
      [k] + rest
  }
}
