// The one-pass typo test of catalog search.
module TypoMatch {
  import opened EditDistance

  /** `b` is `a` with the neighbours at `k` and `k + 1` exchanged, and they differ. */
  predicate SwappedAt(a: string, b: string, k: nat) {
    && |b| == |a| && k + 1 < |a| && a[k] != a[k + 1]
    && b == a[..k] + [a[k + 1], a[k]] + a[k + 2..]
  }

  /** One insertion, deletion, substitution, or adjacent transposition apart. */
  ghost predicate OneTypo(a: string, b: string) {
    a != b && (OneEdit(a, b) || exists k :: SwappedAt(a, b, k))
  }

  ghost predicate TypoMatches(q: string, c: string) {
    |q| >= 5 && |c| >= 5 && q[0] == c[0] && OneTypo(q, c)
  }

  // ----- equal lengths -----

  /** `filter(|i| q[i] != c[i])` from `at` on. */
  function Mismatches(q: string, c: string, at: nat): (r: seq<nat>)
    requires |q| == |c| && at <= |q|
    ensures forall k :: 0 <= k < |r| ==> at <= r[k] < |q| && q[r[k]] != c[r[k]]
    ensures forall k, l :: 0 <= k < l < |r| ==> r[k] < r[l]
    ensures forall i :: at <= i < |q| && q[i] != c[i] ==> i in r
    decreases |q| - at
  {
    if at == |q| then []
    else (if q[at] != c[at] then [at] else []) + Mismatches(q, c, at + 1)
  }

  predicate FewMismatches(q: string, c: string, ms: seq<nat>)
    requires |q| == |c| && forall k :: 0 <= k < |ms| ==> ms[k] < |q|
  {
    || |ms| == 1
    || (|ms| == 2 && ms[1] == ms[0] + 1 && q[ms[0]] == c[ms[1]] && q[ms[1]] == c[ms[0]])
  }

  predicate AgreesExcept(q: string, c: string, ms: seq<nat>) {
    |q| == |c| && forall j :: 0 <= j < |q| && j !in ms ==> q[j] == c[j]
  }

  lemma OneMismatch(q: string, c: string, i: nat)
    requires i < |q|
    ensures AgreesExcept(q, c, [i]) <==> ReplacedAt(q, c, i)
  {
    if ReplacedAt(q, c, i) {
      forall j | 0 <= j < |q| && j !in [i]
        ensures q[j] == c[j]
      {
        assert j != [i][0];
        assert c[j] == (q[..i] + [c[i]] + q[i + 1..])[j];
      }
    }
    if AgreesExcept(q, c, [i]) {
      assert forall j :: 0 <= j < |q| && j != i ==> q[j] == c[j];
      assert c == q[..i] + [c[i]] + q[i + 1..];
    }
  }

  lemma TwoMismatches(q: string, c: string, i: nat)
    requires i + 1 < |q| && q[i] != q[i + 1]
    ensures AgreesExcept(q, c, [i, i + 1]) && q[i] == c[i + 1] && q[i + 1] == c[i] <==> SwappedAt(q, c, i)
  {
    if SwappedAt(q, c, i) {
      forall j | 0 <= j < |q| && j !in [i, i + 1]
        ensures q[j] == c[j]
      {
        assert j != [i, i + 1][0] && j != [i, i + 1][1];
        assert c[j] == (q[..i] + [q[i + 1], q[i]] + q[i + 2..])[j];
      }
    }
    if AgreesExcept(q, c, [i, i + 1]) && q[i] == c[i + 1] && q[i + 1] == c[i] {
      assert forall j :: 0 <= j < |q| && j != i && j != i + 1 ==> q[j] == c[j];
      assert c == q[..i] + [q[i + 1], q[i]] + q[i + 2..];
    }
  }

  lemma SameLengthSound(q: string, c: string)
    requires |q| == |c| && FewMismatches(q, c, Mismatches(q, c, 0))
    ensures OneTypo(q, c)
  {
    var ms := Mismatches(q, c, 0);
    assert AgreesExcept(q, c, ms);
    hide ReplacedAt, SwappedAt, Mismatches, OneTypo;
    var i := ms[0];
    assert q[i] != c[i];
    if |ms| == 1 {
      assert ms == [i];
      OneMismatch(q, c, i);
    } else {
      assert ms == [i, i + 1];
      TwoMismatches(q, c, i);
    }
  }

  lemma SwapComplete(q: string, c: string, k: nat)
    requires |q| == |c| && SwappedAt(q, c, k)
    ensures Mismatches(q, c, 0) == [k, k + 1] && q[k] == c[k + 1] && q[k + 1] == c[k]
  {
    var ms := Mismatches(q, c, 0);
    TwoMismatches(q, c, k);
    hide Mismatches, SwappedAt;
    assert k in ms && k + 1 in ms;
    forall m | m in ms
      ensures m == k || m == k + 1
    {
      assert m in [k, k + 1];
    }
    OnlyTwo(ms, k);
  }

  lemma ReplaceComplete(q: string, c: string, k: nat)
    requires |q| == |c| && q != c && ReplacedAt(q, c, k)
    ensures Mismatches(q, c, 0) == [k]
  {
    var ms := Mismatches(q, c, 0);
    OneMismatch(q, c, k);
    hide Mismatches, ReplacedAt;
    assert forall j :: 0 <= j < |q| ==> j == k || j !in [k];
    assert q[k] != c[k];
    assert k in ms;
    forall m | m in ms
      ensures m == k
    {
      assert m in [k];
    }
    OnlyOne(ms, k);
  }

  lemma SameLengthComplete(q: string, c: string)
    requires |q| == |c| && OneTypo(q, c)
    ensures FewMismatches(q, c, Mismatches(q, c, 0))
  {
    hide Mismatches;
    if k: nat :| SwappedAt(q, c, k) {
      SwapComplete(q, c, k);
    } else {
      var k: nat :| ReplacedAt(q, c, k);
      ReplaceComplete(q, c, k);
    }
  }

  lemma Spread(ms: seq<nat>)
    requires forall i, j :: 0 <= i < j < |ms| ==> ms[i] < ms[j]
    ensures |ms| >= 2 ==> ms[1] >= ms[0] + 1
    ensures |ms| >= 3 ==> ms[2] >= ms[0] + 2
  {
  }

  lemma OnlyOne(ms: seq<nat>, k: nat)
    requires forall i, j :: 0 <= i < j < |ms| ==> ms[i] < ms[j]
    requires k in ms && forall m :: m in ms ==> m == k
    ensures ms == [k]
  {
    Spread(ms);
    assert forall i :: 0 <= i < |ms| ==> ms[i] in ms;
  }

  lemma OnlyTwo(ms: seq<nat>, k: nat)
    requires forall i, j :: 0 <= i < j < |ms| ==> ms[i] < ms[j]
    requires k in ms && k + 1 in ms && forall m :: m in ms ==> m == k || m == k + 1
    ensures ms == [k, k + 1]
  {
    Spread(ms);
    assert forall i :: 0 <= i < |ms| ==> ms[i] in ms;
  }

  // ----- lengths one apart: the greedy single-skip scan -----

  /** The scan's answer from positions `i` and `j`, with or without the skip spent. */
  function Scan(short: string, long: string, i: nat, j: nat, skipped: bool): bool
    requires i <= |short| && j <= |long|
    decreases |long| - j
  {
    if i == |short| || j == |long| then true
    else if short[i] == long[j] then Scan(short, long, i + 1, j + 1, skipped)
    else if !skipped then Scan(short, long, i, j + 1, true)
    else false
  }

  lemma {:induction false} ScanAfterSkip(short: string, long: string, i: nat)
    requires |long| == |short| + 1 && i <= |short|
    ensures Scan(short, long, i, i + 1, true) <==> short[i..] == long[i + 1..]
    decreases |short| - i
  {
    if i < |short| {
      ScanAfterSkip(short, long, i + 1);
      assert short[i..] == [short[i]] + short[i + 1..];
      assert long[i + 1..] == [long[i + 1]] + long[i + 2..];
    }
  }

  /** Skipping at the first mismatch loses nothing: an insertion anywhere later is
      also one there. */
  lemma {:induction false} ScanExact(short: string, long: string, i: nat)
    requires |long| == |short| + 1 && i <= |short| && short[..i] == long[..i]
    ensures Scan(short, long, i, i, false) <==> exists k: nat :: i <= k && InsertedAt(short, long, k)
    decreases |short| - i
  {
    if i == |short| {
      assert long[i + 1..] == [] && short[..i] == short;
      assert InsertedAt(short, long, i);
    } else if short[i] == long[i] {
      assert short[..i + 1] == long[..i + 1];
      ScanExact(short, long, i + 1);
      if InsertedAt(short, long, i) {
        InsertedLater(short, long, i);
      }
    } else {
      ScanAfterSkip(short, long, i);
      if short[i..] == long[i + 1..] {
        assert short == short[..i] + short[i..];
        assert InsertedAt(short, long, i);
      }
      if k: nat :| i <= k && InsertedAt(short, long, k) {
        InsertedAgrees(short, long, k);
        assert k == i;
        assert short[i..] == long[i + 1..];
      }
    }
  }

  lemma InsertedAgrees(short: string, long: string, k: nat)
    requires InsertedAt(short, long, k)
    ensures forall j :: 0 <= j < k ==> short[j] == long[j]
  {
    forall j | 0 <= j < k
      ensures short[j] == long[j]
    {
      assert short[j] == long[..k][j];
    }
  }

  /** Inserting a character before an equal one is inserting it after. */
  lemma InsertedLater(short: string, long: string, i: nat)
    requires InsertedAt(short, long, i) && i < |short| && short[i] == long[i]
    ensures InsertedAt(short, long, i + 1)
  {
    assert short[i] == long[i + 1];
    forall j | 0 <= j < |short|
      ensures short[j] == (long[..i + 1] + long[i + 2..])[j]
    {
      assert short[j] == (long[..i] + long[i + 1..])[j];
    }
  }

  lemma DifferentLengths(short: string, long: string)
    requires |long| == |short| + 1
    ensures Scan(short, long, 0, 0, false) <==> OneTypo(short, long)
    ensures OneTypo(short, long) <==> OneTypo(long, short)
  {
    ScanExact(short, long, 0);
    if OneEdit(short, long) {
      var k: nat :| InsertedAt(short, long, k);
      assert 0 <= k && InsertedAt(short, long, k);
    }
    if OneEdit(long, short) {
      var k: nat :| InsertedAt(short, long, k);
      assert OneEdit(short, long);
    }
    if k: nat :| InsertedAt(short, long, k) {
      assert OneEdit(long, short);
    }
  }

  lemma FarApart(q: string, c: string)
    requires |q| > |c| + 1 || |c| > |q| + 1
    ensures !OneTypo(q, c)
  {
  }

  // ----- the method -----

  /** The single-skip loop. */
  method ScanLoop(shorter: string, longer: string) returns (matched: bool)
    ensures matched == Scan(shorter, longer, 0, 0, false)
  {
    var i, j, skipped := 0, 0, false;
    while i < |shorter| && j < |longer|
      invariant i <= |shorter| && j <= |longer|
      invariant Scan(shorter, longer, 0, 0, false) == Scan(shorter, longer, i, j, skipped)
      decreases |longer| - j
    {
      if shorter[i] == longer[j] {
        i, j := i + 1, j + 1;
      } else if !skipped {
        skipped := true;
        j := j + 1;
      } else {
        return false;
      }
    }
    return true;
  }

  /** True exactly when both words have at least five characters, share the first,
      and are one insertion, deletion, substitution or adjacent transposition apart. */
  method IsTypoMatch(q: string, c: string) returns (matched: bool)
    ensures matched <==> TypoMatches(q, c)
  {
    if |q| < 5 || |c| < 5 || q[0] != c[0] {
      return false;
    }
    var diff := if |q| < |c| then |c| - |q| else |q| - |c|;
    if diff > 1 {
      FarApart(q, c);
      return false;
    }
    if |q| == |c| {
      var mismatches := Mismatches(q, c, 0);
      matched := FewMismatches(q, c, mismatches);
      if matched {
        SameLengthSound(q, c);
      } else if OneTypo(q, c) {
        SameLengthComplete(q, c);
      }
      return;
    }
    var shorter, longer := if |q| < |c| then q else c, if |q| < |c| then c else q;
    matched := ScanLoop(shorter, longer);
    DifferentLengths(shorter, longer);
  }
}
