// UTF-8 (RFC 3629): which bytes are text, where their characters begin, and what is
// left of a text that is cut.
module Utf8 {
  import opened Prelude

  /** A byte inside a character, not at its start. */
  predicate Continuation(b: byte) {
    0x80 <= b < 0xC0
  }

  predicate SecondOfThree(first: byte, second: byte) {
    Continuation(second) && (first == 0xE0 ==> second >= 0xA0) && (first == 0xED ==> second < 0xA0)
  }

  predicate SecondOfFour(first: byte, second: byte) {
    Continuation(second) && (first == 0xF0 ==> second >= 0x90) && (first == 0xF4 ==> second < 0x90)
  }

  /** The bytes of the character that the text begins with; 0 if it begins with none. */
  function CharLength(s: seq<byte>): (n: nat)
    ensures n <= |s|
  {
    if s == [] then 0
    else if s[0] < 0x80 then 1
    else if 0xC2 <= s[0] < 0xE0 then
      if |s| >= 2 && Continuation(s[1]) then 2 else 0
    else if 0xE0 <= s[0] < 0xF0 then
      if |s| >= 3 && SecondOfThree(s[0], s[1]) && Continuation(s[2]) then 3 else 0
    else if 0xF0 <= s[0] < 0xF5 then
      if |s| >= 4 && SecondOfFour(s[0], s[1]) && Continuation(s[2]) && Continuation(s[3]) then 4 else 0
    else 0
  }

  /** The check of `String::from_utf8` and `read_to_string`. */
  predicate IsUtf8(s: seq<byte>)
    decreases |s|
  {
    s == [] || (CharLength(s) > 0 && IsUtf8(s[CharLength(s)..]))
  }

  /** `str::is_char_boundary`. */
  predicate IsBoundary(s: seq<byte>, k: nat)
    requires k <= |s|
  {
    k == 0 || k == |s| || !Continuation(s[k])
  }

  predicate IsAscii(s: seq<byte>) {
    forall i :: 0 <= i < |s| ==> s[i] < 0x80
  }

  lemma CharLengthOfAppend(s: seq<byte>, t: seq<byte>)
    requires CharLength(s) > 0
    ensures CharLength(s + t) == CharLength(s)
  {
  }

  /** What follows a text decides whether the two are text. */
  lemma {:induction false} AppendUtf8(a: seq<byte>, b: seq<byte>)
    requires IsUtf8(a)
    ensures IsUtf8(a + b) <==> IsUtf8(b)
    decreases |a|
  {
    if a == [] {
      AppendSplits(a, b);
    } else {
      var n := CharLength(a);
      CharLengthOfAppend(a, b);
      assert (a + b)[n..] == a[n..] + b;
      hide CharLength;
      AppendUtf8(a[n..], b);
    }
  }

  /** A character starts at its first byte and has no boundary inside. */
  lemma CharBoundaries(s: seq<byte>, k: nat)
    requires CharLength(s) > 0 && 0 < k < CharLength(s)
    ensures Continuation(s[k]) && !Continuation(s[0]) && CharLength(s[..k]) == 0
  {
  }

  lemma StartIsNoContinuation(s: seq<byte>)
    requires s != [] && CharLength(s) > 0
    ensures !Continuation(s[0])
  {
  }

  /** A text cut after `k` bytes is text exactly when the cut is at a boundary. */
  lemma {:induction false} CutIsUtf8(s: seq<byte>, k: nat)
    requires IsUtf8(s) && k <= |s|
    ensures IsUtf8(s[..k]) <==> IsBoundary(s, k)
    decreases |s|
  {
    if k > 0 {
      var n := CharLength(s);
      if k < n {
        CharBoundaries(s, k);
      } else {
        CutIsUtf8(s[n..], k - n);
        if k == n < |s| {
          StartIsNoContinuation(s[n..]);
        }
        assert s[..k][..n] == s[..n] && s[..k][n..] == s[n..][..k - n] && s == s[..n] + s[n..];
        CharLengthOfPrefix(s, n);
        CharLengthOfAppend(s[..n], s[n..][..k - n]);
        assert s[..n] + s[n..][..k - n] == s[..k];
        assert k < |s| && k > n ==> s[n..][k - n] == s[k];
      }
    }
  }

  lemma CharLengthOfPrefix(s: seq<byte>, n: nat)
    requires n == CharLength(s) > 0
    ensures CharLength(s[..n]) == n
  {
  }

  /** A text with a character of several bytes has a cut that is no text. */
  lemma {:induction false} BadCut(s: seq<byte>) returns (k: nat)
    requires IsUtf8(s) && !IsAscii(s)
    ensures 0 < k < |s| && !IsBoundary(s, k)
    decreases |s|
  {
    if CharLength(s) > 1 {
      k := 1;
      CharBoundaries(s, 1);
    } else {
      OneByteIsAscii(s);
      var i :| 0 <= i < |s| && s[i] >= 0x80;
      assert s[1..][i - 1] == s[i];
      k := BadCut(s[1..]);
      k := k + 1;
    }
  }

  /** Every cut of a text is text exactly when the text is ASCII. */
  lemma EveryCutIsUtf8(s: seq<byte>)
    requires IsUtf8(s)
    ensures (forall k :: 0 <= k <= |s| ==> IsBoundary(s, k)) <==> IsAscii(s)
  {
    if !IsAscii(s) {
      var k := BadCut(s);
    }
  }

  lemma OneByteIsAscii(s: seq<byte>)
    requires CharLength(s) == 1
    ensures s[0] < 0x80
  {
  }

  // ----- writing text -----

  function Rest(n: int): byte {
    (0x80 + n % 64) as byte
  }

  /** The bytes of one character. */
  function EncodeChar(c: char): seq<byte> {
    var n := c as int;
    if n < 0x80 then [n as byte]
    else if n < 0x800 then [(0xC0 + n / 64) as byte, Rest(n)]
    else if n < 0x1_0000 then [(0xE0 + n / 4096) as byte, Rest(n / 64), Rest(n)]
    else [(0xF0 + n / 262144) as byte, Rest(n / 4096), Rest(n / 64), Rest(n)]
  }

  function EncodeText(s: string): seq<byte> {
    if s == "" then [] else EncodeChar(s[0]) + EncodeText(s[1..])
  }

  lemma EncodedChar(c: char)
    ensures CharLength(EncodeChar(c)) == |EncodeChar(c)| > 0
  {
    var n := c as int;
    if 0x800 <= n < 0x1_0000 {
      assert n < 0xD800 || 0xE000 <= n;
    } else if 0x1_0000 <= n {
      assert n < 0x11_0000;
    }
  }

  lemma {:induction false} EncodedIsUtf8(s: string)
    ensures IsUtf8(EncodeText(s))
  {
    if s != "" {
      EncodedIsUtf8(s[1..]);
      EncodedChar(s[0]);
      CharLengthOfAppend(EncodeChar(s[0]), EncodeText(s[1..]));
      AppendSplits(EncodeChar(s[0]), EncodeText(s[1..]));
    }
  }

  function DecodeChar(s: seq<byte>): int
    requires CharLength(s) > 0
  {
    match CharLength(s)
    case 1 => s[0] as int
    case 2 => (s[0] as int - 0xC0) * 64 + (s[1] as int - 0x80)
    case 3 => (s[0] as int - 0xE0) * 4096 + (s[1] as int - 0x80) * 64 + (s[2] as int - 0x80)
    case _ => (s[0] as int - 0xF0) * 262144 + (s[1] as int - 0x80) * 4096 + (s[2] as int - 0x80) * 64 + (s[3] as int - 0x80)
  }

  lemma CharReadsBack(c: char)
    ensures CharLength(EncodeChar(c)) > 0 && DecodeChar(EncodeChar(c)) == c as int
  {
    EncodedChar(c);
    var n := c as int;
    assert n == n / 64 * 64 + n % 64;
    assert n / 64 == n / 64 / 64 * 64 + n / 64 % 64 && n / 64 / 64 == n / 4096;
    assert n / 4096 == n / 4096 / 64 * 64 + n / 4096 % 64 && n / 4096 / 64 == n / 262144;
  }

  lemma SplitNumber(n: int, high: int, low: int)
    requires n == high * 64 + low && 0 <= low < 64
    ensures n / 64 == high && n % 64 == low
  {
  }

  /** Each character of a text is one that can be encoded, in just these bytes. */
  lemma DecodedChar(s: seq<byte>) returns (c: char)
    requires CharLength(s) > 0
    ensures EncodeChar(c) == s[..CharLength(s)]
  {
    if CharLength(s) < 3 {
      var n := DecodeChar(s);
      if CharLength(s) == 2 {
        SplitNumber(n, s[0] as int - 0xC0, s[1] as int - 0x80);
      }
      c := n as char;
    } else if CharLength(s) == 3 {
      c := DecodedThree(s);
    } else {
      c := DecodedFour(s);
    }
  }

  lemma DecodedThree(s: seq<byte>) returns (c: char)
    requires CharLength(s) == 3
    ensures EncodeChar(c) == s[..3]
  {
    var n := DecodeChar(s);
    SplitNumber(n, (s[0] as int - 0xE0) * 64 + (s[1] as int - 0x80), s[2] as int - 0x80);
    SplitNumber(n / 64, s[0] as int - 0xE0, s[1] as int - 0x80);
    assert n / 4096 == n / 64 / 64;
    c := n as char;
  }

  lemma DecodedFour(s: seq<byte>) returns (c: char)
    requires CharLength(s) == 4
    ensures EncodeChar(c) == s[..4]
  {
    var n := DecodeChar(s);
    SplitNumber(n, (s[0] as int - 0xF0) * 4096 + (s[1] as int - 0x80) * 64 + (s[2] as int - 0x80), s[3] as int - 0x80);
    SplitNumber(n / 64, (s[0] as int - 0xF0) * 64 + (s[1] as int - 0x80), s[2] as int - 0x80);
    SplitNumber(n / 4096, s[0] as int - 0xF0, s[1] as int - 0x80);
    assert n / 4096 == n / 64 / 64 && n / 262144 == n / 4096 / 64;
    c := n as char;
  }

  lemma {:induction false} DecodedText(s: seq<byte>) returns (text: string)
    requires IsUtf8(s)
    ensures EncodeText(text) == s
    decreases |s|
  {
    hide *;
    text := "";
    TextSteps(s);
    if s != [] {
      var n := CharLength(s);
      var c := DecodedChar(s);
      var rest := DecodedText(s[n..]);
      text := [c] + rest;
      EncodedNext(c, rest);
      assert s == s[..n] + s[n..];
    }
  }

  lemma TextSteps(s: seq<byte>)
    ensures s == [] ==> EncodeText("") == s
    ensures s != [] && IsUtf8(s) ==> CharLength(s) > 0 && IsUtf8(s[CharLength(s)..])
  {
    hide CharLength;
  }

  lemma EncodedNext(c: char, rest: string)
    ensures EncodeText([c] + rest) == EncodeChar(c) + EncodeText(rest)
  {
    hide EncodeChar;
    assert ([c] + rest)[1..] == rest;
  }

  /** Bytes are text exactly when they are the bytes of some characters. */
  lemma TextOfBytes(s: seq<byte>)
    ensures IsUtf8(s) <==> exists text: string :: EncodeText(text) == s
  {
    hide *;
    if IsUtf8(s) {
      var text := DecodedText(s);
      assert EncodeText(text) == s;
    }
    if text: string :| EncodeText(text) == s {
      EncodedIsUtf8(text);
    }
  }

  /** No two strings have the same bytes. */
  lemma {:induction false} EncodeTextInjective(a: string, b: string)
    requires EncodeText(a) == EncodeText(b)
    ensures a == b
  {
    if a != "" && b != "" {
      var x, y := EncodeText(a[1..]), EncodeText(b[1..]);
      EncodedChar(a[0]);
      EncodedChar(b[0]);
      CharLengthOfAppend(EncodeChar(a[0]), x);
      CharLengthOfAppend(EncodeChar(b[0]), y);
      AppendSplits(EncodeChar(a[0]), x);
      AppendSplits(EncodeChar(b[0]), y);
      assert EncodeText(a) == EncodeChar(a[0]) + x && EncodeText(b) == EncodeChar(b[0]) + y;
      CharReadsBack(a[0]);
      CharReadsBack(b[0]);
      assert a[0] as int == b[0] as int;
      hide EncodeText, EncodeChar, CharLength, DecodeChar;
      EncodeTextInjective(a[1..], b[1..]);
      assert a == [a[0]] + a[1..] && b == [b[0]] + b[1..];
    } else {
      if a != "" {
        EncodedChar(a[0]);
      }
      if b != "" {
        EncodedChar(b[0]);
      }
    }
  }

  /** An ASCII byte of the text is that character of the string. */
  lemma {:induction false} AsciiBytes(s: string, b: byte)
    requires b < 0x80 && b in EncodeText(s)
    ensures (b as char) in s
  {
    if b in EncodeChar(s[0]) {
      OnlyAsciiIsAscii(s[0], b);
    } else {
      AsciiBytes(s[1..], b);
    }
  }

  lemma OnlyAsciiIsAscii(c: char, b: byte)
    requires b < 0x80 && b in EncodeChar(c)
    ensures c as int == b as int
  {
  }

  lemma {:induction false} EncodeTextConcat(a: string, b: string)
    ensures EncodeText(a + b) == EncodeText(a) + EncodeText(b)
  {
    AppendSplits(a, b);
    if a != "" {
      EncodeTextConcat(a[1..], b);
      AppendAssociates(EncodeChar(a[0]), EncodeText(a[1..]), EncodeText(b));
    }
  }
}
