// The two-row Levenshtein table, and edit distance as the length of a shortest
// chain of single-character edits.
module EditDistance {
  function Min(a: nat, b: nat): nat {
    if a <= b then a else b
  }

  /** The recursive edit distance, on last characters. */
  function Dist(a: string, b: string): nat
    decreases |a| + |b|
  {
    if a == [] then |b|
    else if b == [] then |a|
    else
      var a', b' := a[..|a| - 1], b[..|b| - 1];
      Min(Min(Dist(a', b) + 1, Dist(a, b') + 1), Dist(a', b') + (if a[|a| - 1] == b[|b| - 1] then 0 else 1))
  }

  lemma PrefixStep(a: string, i: nat, b: string, j: nat)
    requires i < |a| && j < |b|
    ensures Dist(a[..i + 1], b[..j + 1])
         == Min(Min(Dist(a[..i], b[..j + 1]) + 1, Dist(a[..i + 1], b[..j]) + 1),
                Dist(a[..i], b[..j]) + (if a[i] == b[j] then 0 else 1))
  {
    assert a[..i + 1][..i] == a[..i] && b[..j + 1][..j] == b[..j];
  }

  lemma EmptyRow(s: string)
    ensures Dist("", s) == |s| && Dist(s, "") == |s|
  {
  }

  /** Row `i` of the table: the distances of `a[..i]` to the prefixes of `b`. */
  ghost predicate IsRow(row: array<nat>, a: string, i: nat, b: string, filled: nat)
    reads row
    requires i <= |a|
  {
    row.Length == |b| + 1 && filled <= |b| + 1 && forall j :: 0 <= j < filled ==> row[j] == Dist(a[..i], b[..j])
  }

  method Levenshtein(left: string, right: string) returns (distance: nat)
    ensures distance == Dist(left, right)
  {
    hide Dist;
    var n := |right|;
    var previous := new nat[n + 1](j => j);
    var current := new nat[n + 1](_ => 0);
    forall j | 0 <= j <= n
      ensures previous[j] == Dist(left[..0], right[..j])
    {
      EmptyRow(right[..j]);
    }
    for i := 0 to |left|
      invariant previous.Length == n + 1 && current.Length == n + 1 && previous != current
      invariant fresh(previous) && fresh(current)
      invariant IsRow(previous, left, i, right, n + 1)
    {
      current[0] := i + 1;
      EmptyRow(left[..i + 1]);
      for j := 0 to n
        invariant IsRow(previous, left, i, right, n + 1)
        invariant IsRow(current, left, i + 1, right, j + 1)
      {
        PrefixStep(left, i, right, j);
        var substitutionCost := if left[i] == right[j] then 0 else 1;
        var delete := previous[j + 1] + 1;
        var insert := current[j] + 1;
        var substitute := previous[j] + substitutionCost;
        current[j + 1] := Min(Min(delete, insert), substitute);
      }
      previous, current := current, previous;
    }
    assert left[..|left|] == left && right[..n] == right;
    distance := previous[n];
  }

  // ----- the metric laws -----

  lemma {:induction false} DistSymmetric(a: string, b: string)
    ensures Dist(a, b) == Dist(b, a)
    decreases |a| + |b|
  {
    if a != [] && b != [] {
      var a', b' := a[..|a| - 1], b[..|b| - 1];
      DistSymmetric(a', b);
      DistSymmetric(a, b');
      DistSymmetric(a', b');
    }
  }

  /** At least the difference of the lengths, at most the longer length. */
  lemma {:induction false} DistBounds(a: string, b: string)
    ensures Dist(a, b) + Min(|a|, |b|) <= |a| + |b|
    ensures |a| <= |b| + Dist(a, b) && |b| <= |a| + Dist(a, b)
    decreases |a| + |b|
  {
    if a != [] && b != [] {
      var a', b' := a[..|a| - 1], b[..|b| - 1];
      DistBounds(a', b);
      DistBounds(a, b');
      DistBounds(a', b');
    }
  }

  lemma {:induction false} DistZero(a: string, b: string)
    ensures Dist(a, b) == 0 <==> a == b
    decreases |a| + |b|
  {
    if a != [] && b != [] {
      var a', b' := a[..|a| - 1], b[..|b| - 1];
      DistZero(a', b');
      assert a == a' + [a[|a| - 1]] && b == b' + [b[|b| - 1]];
    }
  }

  /** Dropping the last character of either string costs at most one. */
  lemma DistDrop(a: string, b: string)
    ensures a != [] ==> Dist(a, b) <= Dist(a[..|a| - 1], b) + 1
    ensures b != [] ==> Dist(a, b) <= Dist(a, b[..|b| - 1]) + 1
  {
    if a == [] || b == [] {
      DistBounds(a, b);
    }
  }

  lemma {:induction false} DistTriangle(a: string, b: string, c: string)
    ensures Dist(a, c) <= Dist(a, b) + Dist(b, c)
    decreases |a| + |b| + |c|
  {
    DistBounds(a, b);
    DistBounds(b, c);
    DistBounds(a, c);
    if a != [] && b != [] && c != [] {
      var a', b', c' := a[..|a| - 1], b[..|b| - 1], c[..|c| - 1];
      DistTriangle(a', b, c);
      DistTriangle(a, b, c');
      DistTriangle(a, b', c);
      DistTriangle(a, b', c');
      DistTriangle(a', b', c);
      DistTriangle(a', b', c');
    }
  }

  // ----- single edits -----

  /** `b` is `a` with one character inserted at `k`. */
  predicate InsertedAt(a: string, b: string, k: nat) {
    |b| == |a| + 1 && k <= |a| && a == b[..k] + b[k + 1..]
  }

  /** `b` is `a` with the character at `k` replaced. */
  predicate ReplacedAt(a: string, b: string, k: nat) {
    |b| == |a| && k < |a| && b == a[..k] + [b[k]] + a[k + 1..]
  }

  ghost predicate OneEdit(a: string, b: string) {
    || (exists k :: InsertedAt(a, b, k))
    || (exists k :: InsertedAt(b, a, k))
    || (exists k :: ReplacedAt(a, b, k))
  }

  /** A chain of single edits, one per step. */
  ghost predicate Chain(path: seq<string>, a: string, b: string) {
    && path != [] && path[0] == a && path[|path| - 1] == b
    && forall i :: 0 <= i < |path| - 1 ==> OneEdit(path[i], path[i + 1])
  }

  lemma {:induction false} DistAppend(a: string, b: string, x: char)
    ensures Dist(a + [x], b + [x]) <= Dist(a, b)
  {
    assert (a + [x])[..|a|] == a && (b + [x])[..|b|] == b;
  }

  lemma {:induction false} DistCommonSuffix(a: string, b: string, s: string)
    ensures Dist(a + s, b + s) <= Dist(a, b)
    decreases |s|
  {
    hide Dist;
    if s == [] {
      assert a + s == a && b + s == b;
    } else {
      var s', x := s[..|s| - 1], s[|s| - 1];
      DistCommonSuffix(a, b, s');
      DistAppend(a + s', b + s', x);
      assert a + s == a + s' + [x] && b + s == b + s' + [x];
    }
  }

  lemma OneEditDist(a: string, b: string)
    requires OneEdit(a, b)
    ensures Dist(a, b) <= 1
  {
    hide Dist;
    if k: nat :| InsertedAt(a, b, k) {
      InsertDist(a, b, k);
    } else if k: nat :| InsertedAt(b, a, k) {
      InsertDist(b, a, k);
      DistSymmetric(a, b);
    } else {
      var k: nat :| ReplacedAt(a, b, k);
      ReplaceDist(a[..k], a[k], b[k], a[k + 1..]);
      assert a == a[..k] + [a[k]] + a[k + 1..];
    }
  }

  lemma ReplaceDist(p: string, x: char, y: char, s: string)
    ensures Dist(p + [x] + s, p + [y] + s) <= 1
  {
    assert Dist(p + [x], p + [y]) <= 1 by {
      DistZero(p, p);
      assert (p + [x])[..|p|] == p && (p + [y])[..|p|] == p;
    }
    hide Dist;
    DistCommonSuffix(p + [x], p + [y], s);
  }

  lemma PushDist(p: string, x: char)
    ensures Dist(p, p + [x]) <= 1
  {
    DistZero(p, p);
    DistDrop(p, p + [x]);
    assert (p + [x])[..|p|] == p;
  }

  lemma InsertDist(a: string, b: string, k: nat)
    requires InsertedAt(a, b, k)
    ensures Dist(a, b) <= 1
  {
    var p, s := b[..k], b[k + 1..];
    assert b == p + [b[k]] + s;
    hide Dist;
    PushDist(p, b[k]);
    DistCommonSuffix(p, p + [b[k]], s);
  }

  /** No chain of edits is shorter than the distance. */
  lemma {:induction false} ChainIsLongEnough(path: seq<string>, a: string, b: string)
    requires Chain(path, a, b)
    ensures Dist(a, b) <= |path| - 1
    decreases |path|
  {
    if |path| == 1 {
      DistZero(a, b);
    } else {
      var c := path[1];
      assert OneEdit(path[0], path[1]);
      OneEditDist(a, c);
      forall i | 0 <= i < |path[1..]| - 1
        ensures OneEdit(path[1..][i], path[1..][i + 1])
      {
        assert OneEdit(path[i + 1], path[i + 1 + 1]);
      }
      ChainIsLongEnough(path[1..], c, b);
      DistTriangle(a, c, b);
    }
  }

  /** Appending a character to every string of a chain keeps it a chain. */
  lemma OneEditAppend(a: string, b: string, x: char)
    requires OneEdit(a, b)
    ensures OneEdit(a + [x], b + [x])
  {
    if k: nat :| InsertedAt(a, b, k) {
      InsertAppend(a, b, x, k);
    } else if k: nat :| InsertedAt(b, a, k) {
      InsertAppend(b, a, x, k);
    } else {
      var k: nat :| ReplacedAt(a, b, k);
      assert ReplacedAt(a + [x], b + [x], k) by {
        assert (a + [x])[..k] == a[..k] && (a + [x])[k + 1..] == a[k + 1..] + [x];
        assert (b + [x])[k] == b[k];
      }
    }
  }

  lemma InsertAppend(a: string, b: string, x: char, k: nat)
    requires InsertedAt(a, b, k)
    ensures InsertedAt(a + [x], b + [x], k)
  {
    assert (b + [x])[..k] == b[..k] && (b + [x])[k + 1..] == b[k + 1..] + [x];
  }

  function AppendAll(path: seq<string>, x: char): seq<string> {
    seq(|path|, i requires 0 <= i < |path| => path[i] + [x])
  }

  lemma ChainAppend(path: seq<string>, a: string, b: string, x: char)
    requires Chain(path, a, b)
    ensures Chain(AppendAll(path, x), a + [x], b + [x])
  {
    var longer := AppendAll(path, x);
    forall i | 0 <= i < |longer| - 1
      ensures OneEdit(longer[i], longer[i + 1])
    {
      assert OneEdit(path[i], path[i + 1]);
      OneEditAppend(path[i], path[i + 1], x);
    }
  }

  lemma ChainPush(a: string, path: seq<string>, c: string, b: string)
    requires OneEdit(a, c) && Chain(path, c, b)
    ensures Chain([a] + path, a, b)
  {
    var longer := [a] + path;
    forall i | 0 <= i < |longer| - 1
      ensures OneEdit(longer[i], longer[i + 1])
    {
      if i > 0 {
        assert OneEdit(path[i - 1], path[i - 1 + 1]);
      }
    }
  }

  lemma ChainSnoc(path: seq<string>, a: string, c: string, b: string)
    requires Chain(path, a, c) && OneEdit(c, b)
    ensures Chain(path + [b], a, b)
  {
    var longer := path + [b];
    forall i | 0 <= i < |longer| - 1
      ensures OneEdit(longer[i], longer[i + 1])
    {
      if i < |path| - 1 {
        assert OneEdit(path[i], path[i + 1]);
      }
    }
  }

  lemma LastInserted(a: string)
    requires a != []
    ensures InsertedAt(a[..|a| - 1], a, |a| - 1)
  {
    assert a[|a| - 1 + 1..] == [];
    assert a[..|a| - 1] + [] == a[..|a| - 1];
  }

  /** The last step of a shortest way, by what the last cell of the table took. */
  lemma LastStep(a: string, b: string)
    requires a != [] || b != []
    ensures
      if a != [] && (b == [] || Dist(a, b) == Dist(a[..|a| - 1], b) + 1) then Dist(a, b) == Dist(a[..|a| - 1], b) + 1
      else if b != [] && (a == [] || Dist(a, b) == Dist(a, b[..|b| - 1]) + 1) then Dist(a, b) == Dist(a, b[..|b| - 1]) + 1
      else
        && a != [] && b != []
        && Dist(a, b) == Dist(a[..|a| - 1], b[..|b| - 1]) + if a[|a| - 1] == b[|b| - 1] then 0 else 1
  {
  }

  /** Both last characters kept or substituted. */
  lemma PushBoth(inner: seq<string>, a: string, b: string) returns (path: seq<string>)
    requires a != [] && b != [] && Chain(inner, a[..|a| - 1], b[..|b| - 1])
    ensures Chain(path, a, b) && |path| == |inner| + if a[|a| - 1] == b[|b| - 1] then 0 else 1
  {
    var a', b', x, y := a[..|a| - 1], b[..|b| - 1], a[|a| - 1], b[|b| - 1];
    assert a == a' + [x] && b == b' + [y];
    ChainAppend(inner, a', b', y);
    path := AppendAll(inner, y);
    if x != y {
      assert ReplacedAt(a, a' + [y], |a| - 1) by {
        assert a[|a| - 1 + 1..] == [];
      }
      ChainPush(a, path, a' + [y], b);
      path := [a] + path;
    }
  }

  /** Some chain of edits is exactly as long as the distance. */
  lemma {:induction false} ShortestChain(a: string, b: string) returns (path: seq<string>)
    ensures Chain(path, a, b) && |path| - 1 == Dist(a, b)
    decreases |a| + |b|
  {
    if a == [] && b == [] {
      path := [a];
    } else {
      LastStep(a, b);
      hide Dist, ReplacedAt, Chain;
      if a != [] && (b == [] || Dist(a, b) == Dist(a[..|a| - 1], b) + 1) {
        path := ShortestChain(a[..|a| - 1], b);
        LastInserted(a);
        ChainPush(a, path, a[..|a| - 1], b);
        path := [a] + path;
      } else if b != [] && (a == [] || Dist(a, b) == Dist(a, b[..|b| - 1]) + 1) {
        path := ShortestChain(a, b[..|b| - 1]);
        LastInserted(b);
        ChainSnoc(path, a, b[..|b| - 1], b);
        path := path + [b];
      } else {
        path := ShortestChain(a[..|a| - 1], b[..|b| - 1]);
        path := PushBoth(path, a, b);
      }
    }
  }

  /** The distance is the least number of single-character insertions, deletions and
      substitutions that turn one string into the other. */
  lemma DistIsShortestChain(a: string, b: string, n: nat)
    ensures (exists path :: Chain(path, a, b) && |path| - 1 == n) ==> Dist(a, b) <= n
    ensures exists path :: Chain(path, a, b) && |path| - 1 == Dist(a, b)
  {
    if path :| Chain(path, a, b) && |path| - 1 == n {
      ChainIsLongEnough(path, a, b);
    }
    var shortest := ShortestChain(a, b);
  }
}
