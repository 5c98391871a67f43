// The length-prefixed bytes that are hashed into a dataset's identity.
module Identity {
  import opened Prelude

  const COLON: byte := 58
  const SEMICOLON: byte := 59

  /** The ASCII bytes of a numeral. */
  function NumeralBytes(s: string): (r: seq<byte>)
    requires forall i :: 0 <= i < |s| ==> IsDigit(s[i])
    ensures |r| == |s| && forall i :: 0 <= i < |s| ==> r[i] as int == s[i] as int
  {
    seq(|s|, i requires 0 <= i < |s| =>
      assert IsDigit(s[i]); s[i] as int as byte)
  }

  function IdentityPart(value: seq<byte>): seq<byte> {
    NumeralBytes(Decimal(|value|)) + [COLON] + value + [SEMICOLON]
  }

  /** `push_identity_part`, on an append-only buffer. */
  method PushIdentityPart(identity: seq<byte>, value: seq<byte>) returns (out: seq<byte>)
    ensures out == identity + IdentityPart(value)
  {
    out := identity + NumeralBytes(Decimal(|value|));
    out := out + [COLON];
    out := out + value;
    out := out + [SEMICOLON];
  }

  function IdentityBytes(database: seq<byte>, schema: seq<byte>, object_: seq<byte>): seq<byte> {
    IdentityPart(database) + IdentityPart(schema) + IdentityPart(object_)
  }

  /** The buffer that `dataset_identity_digest` hashes. */
  method DatasetIdentity(database: seq<byte>, schema: seq<byte>, object_: seq<byte>) returns (identity: seq<byte>)
    ensures identity == IdentityBytes(database, schema, object_)
  {
    identity := PushIdentityPart([], database);
    identity := PushIdentityPart(identity, schema);
    identity := PushIdentityPart(identity, object_);
  }

  /** An instance, in ASCII: "2:DB;1:S;1:T;" for the object T of the schema S of DB. */
  lemma IdentityOf(database: seq<byte>, schema: seq<byte>, object_: seq<byte>)
    requires database == [68, 66] && schema == [83] && object_ == [84]
    ensures IdentityBytes(database, schema, object_) == [50, 58, 68, 66, 59, 49, 58, 83, 59, 49, 58, 84, 59]
  {
    assert Decimal(2) == "2" && Decimal(1) == "1";
    assert NumeralBytes("2") == [50] && NumeralBytes("1") == [49];
  }

  /** Two texts that begin with different-length digit runs before a colon differ. */
  lemma SameNumeral(m: nat, n: nat, x: seq<byte>, y: seq<byte>)
    requires NumeralBytes(Decimal(m)) + [COLON] + x == NumeralBytes(Decimal(n)) + [COLON] + y
    ensures m == n && x == y
  {
    var a, b := NumeralBytes(Decimal(m)), NumeralBytes(Decimal(n));
    var s := a + [COLON] + x;
    assert s == b + [COLON] + y;
    assert forall i :: 0 <= i < |a| ==> a[i] != COLON by {
      forall i | 0 <= i < |a|
        ensures a[i] != COLON
      {
        assert IsDigit(Decimal(m)[i]);
      }
    }
    assert forall i :: 0 <= i < |b| ==> b[i] != COLON by {
      forall i | 0 <= i < |b|
        ensures b[i] != COLON
      {
        assert IsDigit(Decimal(n)[i]);
      }
    }
    assert s[|a|] == COLON && s[|b|] == COLON;
    assert forall i :: 0 <= i < |a| ==> s[i] == a[i];
    assert forall i :: 0 <= i < |b| ==> s[i] == b[i];
    assert |a| == |b|;
    assert a == s[..|a|] && b == s[..|b|];
    assert x == s[|a| + 1..] && y == s[|b| + 1..];
    forall i | 0 <= i < |Decimal(m)|
      ensures Decimal(m)[i] == Decimal(n)[i]
    {
      assert a[i] == b[i];
    }
    assert Decimal(m) == Decimal(n);
    DecimalInjective(m, n);
  }

  /** A part can be taken off the front in one way only. */
  lemma PartPrefixFree(v: seq<byte>, w: seq<byte>, x: seq<byte>, y: seq<byte>)
    requires IdentityPart(v) + x == IdentityPart(w) + y
    ensures v == w && x == y
  {
    var tv, tw := v + [SEMICOLON] + x, w + [SEMICOLON] + y;
    assert IdentityPart(v) + x == NumeralBytes(Decimal(|v|)) + [COLON] + tv;
    assert IdentityPart(w) + y == NumeralBytes(Decimal(|w|)) + [COLON] + tw;
    SameNumeral(|v|, |w|, tv, tw);
    assert v == tv[..|v|] && w == tw[..|w|];
    assert x == tv[|v| + 1..] && y == tw[|w| + 1..];
  }

  /** The identity bytes determine the triple, whatever bytes the names hold. */
  lemma IdentityInjective(d: seq<byte>, s: seq<byte>, o: seq<byte>, d': seq<byte>, s': seq<byte>, o': seq<byte>)
    requires IdentityBytes(d, s, o) == IdentityBytes(d', s', o')
    ensures d == d' && s == s' && o == o'
  {
    AppendAssociates(IdentityPart(d), IdentityPart(s), IdentityPart(o));
    AppendAssociates(IdentityPart(d'), IdentityPart(s'), IdentityPart(o'));
    PartPrefixFree(d, d', IdentityPart(s) + IdentityPart(o), IdentityPart(s') + IdentityPart(o'));
    PartPrefixFree(s, s', IdentityPart(o), IdentityPart(o'));
    assert IdentityPart(o) + [] == IdentityPart(o) && IdentityPart(o') + [] == IdentityPart(o');
    PartPrefixFree(o, o', [], []);
  }
}
