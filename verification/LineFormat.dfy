// A line format that meets everything the store asks of one: the fields of a record as
// quoted strings with escaped line ends, in UTF-8, as the JSON encoder leaves them.
module LineFormat {
  import opened Prelude
  import opened Records
  import opened Utf8
  import opened LogText

  // ----- quoting -----

  function QuotedChar(c: char): string {
    if c == '"' then "\\q"
    else if c == '\\' then "\\\\"
    else if c == '\n' then "\\n"
    else if c == '\r' then "\\r"
    else [c]
  }

  function QuotedBody(s: string): string {
    if s == "" then "" else QuotedChar(s[0]) + QuotedBody(s[1..])
  }

  /** The fields, each ended by a quote. */
  function QuotedAll(fields: seq<string>): string {
    if fields == [] then "" else QuotedBody(fields[0]) + ("\"" + QuotedAll(fields[1..]))
  }

  /** The first characters of a quoted character give it away. */
  lemma SameQuoted(c: char, d: char, s: string)
    requires QuotedChar(c) <= s && QuotedChar(d) <= s
    ensures c == d
  {
    assert QuotedChar(c)[0] == s[0] == QuotedChar(d)[0];
    if |QuotedChar(c)| == 2 && |QuotedChar(d)| == 2 {
      assert QuotedChar(c)[1] == s[1] == QuotedChar(d)[1];
    }
  }

  lemma QuotedCharReads(c: char, d: char, x: string, y: string)
    requires QuotedChar(c) + x == QuotedChar(d) + y
    ensures c == d && x == y
  {
    hide QuotedChar;
    SameQuoted(c, d, QuotedChar(c) + x);
    AppendSplits(QuotedChar(c), x);
    AppendSplits(QuotedChar(d), y);
  }

  lemma NoBareQuote(c: char, x: string, y: string)
    ensures QuotedChar(c) + x != "\"" + y
  {
    assert (QuotedChar(c) + x)[0] == QuotedChar(c)[0] && ("\"" + y)[0] == '"';
  }

  /** A field is read back to its quote, and what follows it is determined. */
  lemma {:induction false} FieldReads(a: string, b: string, x: string, y: string)
    requires QuotedBody(a) + ("\"" + x) == QuotedBody(b) + ("\"" + y)
    ensures a == b && x == y
    decreases |a|
  {
    if a == "" && b == "" {
      AppendSplits("", "\"" + x);
      AppendSplits("", "\"" + y);
      AppendSplits("\"", x);
      AppendSplits("\"", y);
    } else if a == "" {
      AppendSplits("", "\"" + x);
      AppendAssociates(QuotedChar(b[0]), QuotedBody(b[1..]), "\"" + y);
      NoBareQuote(b[0], QuotedBody(b[1..]) + ("\"" + y), x);
    } else if b == "" {
      AppendSplits("", "\"" + y);
      AppendAssociates(QuotedChar(a[0]), QuotedBody(a[1..]), "\"" + x);
      NoBareQuote(a[0], QuotedBody(a[1..]) + ("\"" + x), y);
    } else {
      var a', b' := QuotedBody(a[1..]), QuotedBody(b[1..]);
      AppendAssociates(QuotedChar(a[0]), a', "\"" + x);
      AppendAssociates(QuotedChar(b[0]), b', "\"" + y);
      assert a == [a[0]] + a[1..] && b == [b[0]] + b[1..];
      assert QuotedBody(a) == QuotedChar(a[0]) + a' && QuotedBody(b) == QuotedChar(b[0]) + b';
      hide QuotedBody, QuotedChar;
      QuotedCharReads(a[0], b[0], a' + ("\"" + x), b' + ("\"" + y));
      FieldReads(a[1..], b[1..], x, y);
    }
  }

  lemma QuotedNotEmpty(fields: seq<string>)
    ensures QuotedAll(fields) == "" <==> fields == []
  {
  }

  lemma {:induction false} QuotedAllInjective(fs: seq<string>, gs: seq<string>)
    requires QuotedAll(fs) == QuotedAll(gs)
    ensures fs == gs
    decreases |fs|
  {
    QuotedNotEmpty(fs);
    QuotedNotEmpty(gs);
    if fs != [] {
      var x, y := QuotedAll(fs[1..]), QuotedAll(gs[1..]);
      FieldReads(fs[0], gs[0], x, y);
      QuotedAllInjective(fs[1..], gs[1..]);
      assert fs == [fs[0]] + fs[1..] && gs == [gs[0]] + gs[1..];
    }
  }

  lemma {:induction false} NoLineEnds(s: string)
    ensures '\n' !in QuotedBody(s) && '\r' !in QuotedBody(s)
  {
    if s != "" {
      NoLineEnds(s[1..]);
    }
  }

  lemma {:induction false} NoLineEndsInAll(fields: seq<string>)
    ensures '\n' !in QuotedAll(fields) && '\r' !in QuotedAll(fields)
  {
    if fields != [] {
      NoLineEndsInAll(fields[1..]);
      NoLineEnds(fields[0]);
    }
  }

  // ----- records as fields -----

  function OptionField(o: Option<string>): string {
    match o case None => "" case Some(s) => "=" + s
  }

  function FieldsOf(r: Record): seq<string> {
    match r
    case Profile(id, body) => ["0", id, body]
    case Snapshot(id, p, d, s, time, body) => ["1", id, p, OptionField(d), OptionField(s), Decimal(time), body]
    case Manifest(id, body) => ["2", id, body]
    case Plan(id, body) => ["3", id, body]
    case Receipt(id, plan, p, outcome, q, time, body) =>
      ["4", id, plan, p, outcome, OptionField(q), Decimal(time), body]
    case Partition(id, index, body) => ["5", id, Decimal(index), body]
    case Export(id, receipt, time, body) => ["6", id, receipt, Decimal(time), body]
    case Cost(id, p, time, body) => ["7", id, p, Decimal(time), body]
    case Bundle(id, body) => ["8", id, body]
    case Audit(id, time, body) => ["9", id, Decimal(time), body]
  }

  lemma OptionFieldInjective(a: Option<string>, b: Option<string>)
    requires OptionField(a) == OptionField(b)
    ensures a == b
  {
    if a.Some? && b.Some? {
      AppendSplits("=", a.value);
      AppendSplits("=", b.value);
    }
  }

  /** The first field tells the table. */
  lemma TagsDiffer(a: Record, b: Record)
    requires FieldsOf(a)[0] == FieldsOf(b)[0]
    ensures TableOf(a) == TableOf(b)
  {
    assert FieldsOf(a)[0][0] == FieldsOf(b)[0][0];
  }

  lemma FieldsInjective(a: Record, b: Record)
    requires FieldsOf(a) == FieldsOf(b)
    ensures a == b
  {
    assert |FieldsOf(a)| > 0 && |FieldsOf(b)| > 0 && FieldsOf(a)[0] == FieldsOf(b)[0];
    TagsDiffer(a, b);
    var fs, gs := FieldsOf(a), FieldsOf(b);
    assert forall i :: 0 <= i < |fs| ==> fs[i] == gs[i];
    match a
    case Snapshot(_, _, d, s, time, _) =>
      OptionFieldInjective(d, b.database);
      OptionFieldInjective(s, b.schema);
      DecimalInjective(time, b.time);
    case Receipt(_, _, _, _, q, time, _) =>
      OptionFieldInjective(q, b.queryId);
      DecimalInjective(time, b.time);
    case Partition(_, index, _) => DecimalInjective(index, b.index);
    case Export(_, _, time, _) => DecimalInjective(time, b.time);
    case Cost(_, _, time, _) => DecimalInjective(time, b.time);
    case Audit(_, time, _) => DecimalInjective(time, b.time);
    case _ =>
  }

  // ----- the codec -----

  function Encode(r: Record): seq<byte> {
    EncodeText(QuotedAll(FieldsOf(r)))
  }

  lemma EncodeInjective(a: Record, b: Record)
    requires Encode(a) == Encode(b)
    ensures a == b
  {
    hide QuotedAll, EncodeText, FieldsOf;
    EncodeTextInjective(QuotedAll(FieldsOf(a)), QuotedAll(FieldsOf(b)));
    QuotedAllInjective(FieldsOf(a), FieldsOf(b));
    FieldsInjective(a, b);
  }

  ghost function Decode(t: Table, line: seq<byte>): (r: Option<Record>)
    ensures r.Some? ==> TableOf(r.value) == t && Encode(r.value) == line
    ensures r.None? ==> forall x :: TableOf(x) == t ==> Encode(x) != line
  {
    if x: Record :| TableOf(x) == t && Encode(x) == line then Some(x) else None
  }

  ghost function LineCodec(accepts: Record -> bool): Codec {
    Codec(r => Encode(r), (t, line) => Decode(t, line), accepts, line => line == [])
  }

  lemma EncodeIsOneLine(r: Record)
    ensures IsUtf8(Encode(r)) && Encode(r) != [] && NEWLINE !in Encode(r) && RETURN !in Encode(r)
  {
    var text := QuotedAll(FieldsOf(r));
    EncodedIsUtf8(text);
    NoLineEndsInAll(FieldsOf(r));
    QuotedNotEmpty(FieldsOf(r));
    hide QuotedAll;
    if NEWLINE in Encode(r) {
      AsciiBytes(text, NEWLINE);
    }
    if RETURN in Encode(r) {
      AsciiBytes(text, RETURN);
    }
    if text != "" {
      EncodedChar(text[0]);
    }
  }

  /** What the store asks of a codec can be had, with any check of records. */
  lemma LineCodecIsFaithful(accepts: Record -> bool)
    ensures Faithful(LineCodec(accepts))
  {
    var c := LineCodec(accepts);
    hide Encode, FieldsOf;
    forall r: Record
      ensures c.decode(TableOf(r), c.encode(r)) == Some(r)
      ensures IsUtf8(c.encode(r)) && NEWLINE !in c.encode(r) && !c.isBlank(c.encode(r))
      ensures c.encode(r) != [] && c.encode(r)[|c.encode(r)| - 1] != RETURN
    {
      EncodeIsOneLine(r);
      var back := Decode(TableOf(r), Encode(r));
      assert back.Some?;
      EncodeInjective(back.value, r);
    }
  }
}
