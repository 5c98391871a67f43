// The text of a table log: one encoded record a line, and what a load reads.
module LogText {
  import opened Prelude
  import opened Keys
  import opened Records
  import opened Utf8

  const NEWLINE: byte := 10
  const RETURN: byte := 13

  /** The line format and the validation of records. `decode` is the JSON parse with
      its version check; `accepts` is the record's own check (secret-free profile,
      verified payload, well-formed address). */
  datatype Codec = Codec(
    encode: Record -> seq<byte>,
    decode: (Table, seq<byte>) -> Option<Record>,
    accepts: Record -> bool,
    isBlank: seq<byte> -> bool)

  /** What JSON gives: a record reads back as itself, on one line of text that is not
      blank and does not end in a carriage return; a line read for a table is one of
      that table's records. */
  ghost predicate Faithful(c: Codec) {
    && (forall r :: c.decode(TableOf(r), c.encode(r)) == Some(r))
    && (forall r :: NEWLINE !in c.encode(r) && !c.isBlank(c.encode(r)))
    && (forall r :: IsUtf8(c.encode(r)))
    && (forall r :: c.encode(r) != [] && c.encode(r)[|c.encode(r)| - 1] != RETURN)
    && (forall t, line :: c.decode(t, line).Some? ==> TableOf(c.decode(t, line).value) == t)
  }

  // ----- lines -----

  /** The text through its last newline. */
  function Complete(text: seq<byte>): (r: seq<byte>)
    ensures |r| <= |text| && r == text[..|r|]
  {
    if text == [] then []
    else if text[|text| - 1] == NEWLINE then text
    else Complete(text[..|text| - 1])
  }

  /** No torn tail: the text is empty or ends with a newline. */
  predicate Whole(text: seq<byte>) {
    text == [] || text[|text| - 1] == NEWLINE
  }

  function LineEnd(text: seq<byte>): (n: nat)
    ensures n <= |text|
    ensures n < |text| ==> text[n] == NEWLINE
    ensures forall i :: 0 <= i < n ==> text[i] != NEWLINE
  {
    if text == [] || text[0] == NEWLINE then 0 else 1 + LineEnd(text[1..])
  }

  function StripReturn(line: seq<byte>): seq<byte> {
    if line != [] && line[|line| - 1] == RETURN then line[..|line| - 1] else line
  }

  /** `str::lines`. */
  function Lines(text: seq<byte>): seq<seq<byte>>
    decreases |text|
  {
    if text == [] then []
    else
      var n := LineEnd(text);
      if n == |text| then [StripReturn(text)] else [StripReturn(text[..n])] + Lines(text[n + 1..])
  }

  lemma {:induction false} LineEndAt(line: seq<byte>, rest: seq<byte>)
    requires NEWLINE !in line && (rest == [] || rest[0] == NEWLINE)
    ensures LineEnd(line + rest) == |line|
  {
    if line == [] {
      assert line + rest == rest;
    } else {
      assert (line + rest)[1..] == line[1..] + rest;
      LineEndAt(line[1..], rest);
    }
  }

  lemma LinesStep(line: seq<byte>, rest: seq<byte>)
    requires NEWLINE !in line
    ensures Lines(line + ([NEWLINE] + rest)) == [StripReturn(line)] + Lines(rest)
  {
    var s := line + ([NEWLINE] + rest);
    LineEndAt(line, [NEWLINE] + rest);
    assert s[..|line|] == line && s[|line| + 1..] == rest;
  }

  /** A non-empty whole text is a line and the whole text after it. */
  lemma FirstLine(text: seq<byte>) returns (line: seq<byte>, rest: seq<byte>)
    requires Whole(text) && text != []
    ensures NEWLINE !in line && Whole(rest) && text == line + ([NEWLINE] + rest)
  {
    var n := LineEnd(text);
    line := text[..n];
    rest := if n < |text| then text[n + 1..] else [];
    assert n < |text| by {
      assert text[|text| - 1] == NEWLINE;
    }
    assert text == line + ([NEWLINE] + rest);
    if rest != [] {
      assert rest[|rest| - 1] == text[|text| - 1];
    }
  }

  lemma {:induction false} LinesConcat(a: seq<byte>, b: seq<byte>)
    requires Whole(a)
    ensures Lines(a + b) == Lines(a) + Lines(b)
    decreases |a|
  {
    if a == [] {
      assert a + b == b && [] + Lines(b) == Lines(b);
    } else {
      hide Lines, LineEnd;
      var line, rest := FirstLine(a);
      assert a + b == line + ([NEWLINE] + (rest + b));
      LinesStep(line, rest);
      LinesStep(line, rest + b);
      LinesConcat(rest, b);
      AppendAssociates([StripReturn(line)], Lines(rest), Lines(b));
    }
  }

  /** Text followed by an unterminated fragment is complete up to the fragment. */
  lemma {:induction false} CompleteBefore(whole: seq<byte>, fragment: seq<byte>)
    requires Whole(whole) && NEWLINE !in fragment
    ensures Complete(whole + fragment) == whole
    decreases |fragment|
  {
    var s := whole + fragment;
    if fragment == [] {
      assert s == whole;
      if whole != [] {
        assert s[|s| - 1] == NEWLINE;
      }
    } else {
      var init := fragment[..|fragment| - 1];
      assert s[|s| - 1] == fragment[|fragment| - 1] && fragment[|fragment| - 1] in fragment;
      assert s[..|s| - 1] == whole + init;
      assert forall ch :: ch in init ==> ch in fragment;
      CompleteBefore(whole, init);
    }
  }

  // ----- what a load reads -----

  /** Whether a line holds a record the table takes; blank lines are neither. */
  datatype LineClass = Blank | Valid(record: Record) | Skipped

  function Classify(c: Codec, t: Table, line: seq<byte>): LineClass {
    if c.isBlank(line) then Blank
    else
      match c.decode(t, line)
      case None => Skipped
      case Some(r) => if c.accepts(r) then Valid(r) else Skipped
  }

  function ParseLines(c: Codec, t: Table, lines: seq<seq<byte>>): seq<Record> {
    if lines == [] then []
    else
      (match Classify(c, t, lines[0]) case Valid(r) => [r] case _ => []) + ParseLines(c, t, lines[1..])
  }

  function CountSkipped(c: Codec, t: Table, lines: seq<seq<byte>>): nat {
    if lines == [] then 0
    else (if Classify(c, t, lines[0]).Skipped? then 1 else 0) + CountSkipped(c, t, lines[1..])
  }

  lemma {:induction false} ParseLinesConcat(c: Codec, t: Table, a: seq<seq<byte>>, b: seq<seq<byte>>)
    ensures ParseLines(c, t, a + b) == ParseLines(c, t, a) + ParseLines(c, t, b)
  {
    if a == [] {
      assert a + b == b;
    } else {
      assert (a + b)[1..] == a[1..] + b;
      ParseLinesConcat(c, t, a[1..], b);
    }
  }

  lemma {:induction false} ParseLinesSound(c: Codec, t: Table, lines: seq<seq<byte>>)
    requires Faithful(c)
    ensures AllOf(t, ParseLines(c, t, lines))
    ensures forall r :: r in ParseLines(c, t, lines) ==> c.accepts(r)
  {
    if lines != [] {
      ParseLinesSound(c, t, lines[1..]);
    }
  }

  /** The records of the complete, readable, accepted lines. */
  function ValidRecords(c: Codec, t: Table, text: seq<byte>): seq<Record> {
    ParseLines(c, t, Lines(Complete(text)))
  }

  function SkippedIn(c: Codec, t: Table, text: seq<byte>): nat {
    CountSkipped(c, t, Lines(Complete(text)))
  }

  /** What reopening the log gives. */
  function Contents(c: Codec, t: Table, text: seq<byte>): TableMap {
    PutAll(map[], ValidRecords(c, t, text))
  }

  lemma ContentsKeyed(c: Codec, t: Table, text: seq<byte>)
    requires Faithful(c)
    ensures Keyed(t, Contents(c, t, text)) && |Contents(c, t, text)| <= |ValidRecords(c, t, text)|
  {
    ParseLinesSound(c, t, Lines(Complete(text)));
    PutAllKeyed(t, map[], ValidRecords(c, t, text));
    PutAllSize(map[], ValidRecords(c, t, text));
  }

  // ----- writing -----

  function EncodedLine(c: Codec, r: Record): seq<byte> {
    c.encode(r) + [NEWLINE]
  }

  function EncodeAll(c: Codec, rs: seq<Record>): seq<byte> {
    if rs == [] then [] else EncodedLine(c, rs[0]) + EncodeAll(c, rs[1..])
  }

  lemma OneLine(line: seq<byte>)
    requires NEWLINE !in line && (line == [] || line[|line| - 1] != RETURN)
    ensures Lines(line + [NEWLINE]) == [line] && Whole(line + [NEWLINE])
  {
    var s := line + [NEWLINE];
    LineEndAt(line, [NEWLINE]);
    assert s[..|line|] == line && s[|line| + 1..] == [];
  }

  lemma WholeIsComplete(text: seq<byte>)
    requires Whole(text)
    ensures Complete(text) == text
  {
    CompleteBefore(text, []);
    assert text + [] == text;
  }

  lemma ValidRecordsConcat(c: Codec, t: Table, a: seq<byte>, b: seq<byte>)
    requires Whole(a) && Whole(b)
    ensures Whole(a + b) && ValidRecords(c, t, a + b) == ValidRecords(c, t, a) + ValidRecords(c, t, b)
  {
    assert Whole(a + b) by {
      if b == [] {
        assert a + b == a;
      } else {
        assert (a + b)[|a + b| - 1] == b[|b| - 1];
      }
    }
    hide Lines, Whole, Complete;
    WholeIsComplete(a);
    WholeIsComplete(b);
    WholeIsComplete(a + b);
    LinesConcat(a, b);
    ParseLinesConcat(c, t, Lines(a), Lines(b));
  }

  /** One terminated line reads as what its text classifies to. */
  lemma OneLineReads(c: Codec, t: Table, line: seq<byte>)
    requires NEWLINE !in line && (line == [] || line[|line| - 1] != RETURN)
    ensures Whole(line + [NEWLINE])
    ensures ValidRecords(c, t, line + [NEWLINE]) == match Classify(c, t, line) case Valid(r) => [r] case _ => []
  {
    OneLine(line);
    hide Lines, Whole;
    WholeIsComplete(line + [NEWLINE]);
    assert [line][1..] == [] && ParseLines(c, t, []) == [];
    assert ParseLines(c, t, [line]) == (match Classify(c, t, line) case Valid(r) => [r] case _ => []) + [];
  }

  /** Appending an encoded record to a whole log adds exactly that record. */
  lemma AppendAddsRecord(c: Codec, text: seq<byte>, r: Record)
    requires Faithful(c) && Whole(text) && c.accepts(r)
    ensures Whole(text + EncodedLine(c, r))
    ensures ValidRecords(c, TableOf(r), text + EncodedLine(c, r)) == ValidRecords(c, TableOf(r), text) + [r]
  {
    hide Whole, ValidRecords;
    OneLineReads(c, TableOf(r), c.encode(r));
    ValidRecordsConcat(c, TableOf(r), text, EncodedLine(c, r));
  }

  /** An encoded line is text, and the newline ends it at a character boundary. */
  lemma EncodedIsText(c: Codec, r: Record)
    requires Faithful(c)
    ensures IsUtf8(EncodedLine(c, r))
  {
    assert [NEWLINE][1..] == [] && IsUtf8([NEWLINE]);
    AppendUtf8(c.encode(r), [NEWLINE]);
  }

  /** What a reopen does with a log: it refuses one that is not text, and reads the
      complete lines of one that is. */
  function Reopened(c: Codec, t: Table, text: seq<byte>): Option<TableMap> {
    if IsUtf8(text) then Some(Contents(c, t, text)) else None
  }

  /** A crash that leaves the first `k` bytes of a line. Cut at a character boundary
      the table reopens as it was before the write, or as it is after all of it; cut
      inside a character it does not reopen. */
  lemma CrashedAppend(c: Codec, text: seq<byte>, r: Record, k: nat)
    requires Faithful(c) && Whole(text) && IsUtf8(text) && c.accepts(r) && k <= |EncodedLine(c, r)|
    ensures Reopened(c, TableOf(r), text + EncodedLine(c, r)[..k])
         == if !IsBoundary(EncodedLine(c, r), k) then None
            else if k < |EncodedLine(c, r)| then Some(Contents(c, TableOf(r), text))
            else Some(Put(Contents(c, TableOf(r), text), r))
  {
    var bytes := EncodedLine(c, r);
    EncodedIsText(c, r);
    CutIsUtf8(bytes, k);
    AppendUtf8(text, bytes[..k]);
    if k < |bytes| {
      assert bytes[..k] == c.encode(r)[..k];
      assert forall b :: b in bytes[..k] ==> b in c.encode(r);
      CompleteBefore(text, bytes[..k]);
      WholeIsComplete(text);
    } else {
      assert bytes[..k] == bytes;
      AppendAddsRecord(c, text, r);
      PutAllSnoc(map[], ValidRecords(c, TableOf(r), text), r);
    }
  }

  /** Appending after a torn tail at a character boundary (after any other the table
      does not open, so nothing is appended): the line glued from the tail and the
      record is what a reopen reads, so the record itself is kept only when that line
      happens to hold it. */
  lemma AppendAfterTornTail(c: Codec, text: seq<byte>, tail: seq<byte>, r: Record)
    requires Faithful(c) && Whole(text) && NEWLINE !in tail && IsUtf8(text + tail)
    ensures IsUtf8(text + tail + EncodedLine(c, r))
    ensures ValidRecords(c, TableOf(r), text + tail + EncodedLine(c, r))
         == ValidRecords(c, TableOf(r), text)
            + match Classify(c, TableOf(r), tail + c.encode(r)) case Valid(glued) => [glued] case _ => []
  {
    EncodedIsText(c, r);
    AppendUtf8(text + tail, EncodedLine(c, r));
    GluedLine(c, text, tail, r);
    hide *;
    var line := tail + c.encode(r);
    OneLineReads(c, TableOf(r), line);
    ValidRecordsConcat(c, TableOf(r), text, line + [NEWLINE]);
  }

  lemma GluedLine(c: Codec, text: seq<byte>, tail: seq<byte>, r: Record)
    requires Faithful(c) && NEWLINE !in tail
    ensures var line := tail + c.encode(r);
      && NEWLINE !in line && line != [] && line[|line| - 1] != RETURN
      && text + tail + EncodedLine(c, r) == text + (line + [NEWLINE])
  {
    var line := tail + c.encode(r);
    assert line[|line| - 1] == c.encode(r)[|c.encode(r)| - 1];
    hide Faithful;
    AppendAssociates(tail, c.encode(r), [NEWLINE]);
    AppendAssociates(text, tail, EncodedLine(c, r));
  }

  lemma {:induction false} EncodedAllIsText(c: Codec, rs: seq<Record>)
    requires Faithful(c)
    ensures IsUtf8(EncodeAll(c, rs))
  {
    if rs != [] {
      EncodedAllIsText(c, rs[1..]);
      EncodedIsText(c, rs[0]);
      AppendUtf8(EncodedLine(c, rs[0]), EncodeAll(c, rs[1..]));
    }
  }

  lemma {:induction false} EncodeAllReadsBack(c: Codec, t: Table, rs: seq<Record>)
    requires Faithful(c) && AllOf(t, rs) && forall r :: r in rs ==> c.accepts(r)
    ensures Whole(EncodeAll(c, rs)) && ValidRecords(c, t, EncodeAll(c, rs)) == rs
  {
    if rs != [] {
      assert TableOf(rs[0]) == t && rs[0] in rs && c.accepts(rs[0]);
      assert AllOf(t, rs[1..]) && forall r :: r in rs[1..] ==> r in rs;
      assert EncodeAll(c, rs) == EncodedLine(c, rs[0]) + EncodeAll(c, rs[1..]);
      assert rs == [rs[0]] + rs[1..];
      EncodedReads(c, t, rs[0]);
      hide *;
      EncodeAllReadsBack(c, t, rs[1..]);
      ValidRecordsConcat(c, t, EncodedLine(c, rs[0]), EncodeAll(c, rs[1..]));
    } else {
      assert Complete([]) == [] && Lines([]) == [];
    }
  }

  lemma EncodedReads(c: Codec, t: Table, r: Record)
    requires Faithful(c) && TableOf(r) == t && c.accepts(r)
    ensures Whole(EncodedLine(c, r)) && ValidRecords(c, t, EncodedLine(c, r)) == [r]
  {
    OneLineReads(c, t, c.encode(r));
    hide Whole, ValidRecords;
  }

  lemma ValuesAccepted(c: Codec, m: TableMap)
    requires forall k :: k in m ==> c.accepts(m[k])
    ensures forall r :: r in Values(m) ==> c.accepts(r)
  {
    forall r | r in Values(m)
      ensures c.accepts(r)
    {
      var i :| 0 <= i < |Values(m)| && Values(m)[i] == r;
      assert r == m[SortedKeys(m.Keys)[i]];
    }
  }

  /** Rewriting a table to its canonical records changes nothing a reopen sees, and
      leaves one line a record. */
  lemma RewriteKeepsContents(c: Codec, t: Table, m: TableMap)
    requires Faithful(c) && Keyed(t, m) && forall k :: k in m ==> c.accepts(m[k])
    ensures Whole(EncodeAll(c, Values(m))) && IsUtf8(EncodeAll(c, Values(m)))
    ensures ValidRecords(c, t, EncodeAll(c, Values(m))) == Values(m)
    ensures Contents(c, t, EncodeAll(c, Values(m))) == m
  {
    ValuesAllOf(t, m);
    ValuesAccepted(c, m);
    EncodedAllIsText(c, Values(m));
    hide IsUtf8, Faithful, Keyed, AllOf, Values, EncodeAll, ValidRecords, Whole, PutAll;
    EncodeAllReadsBack(c, t, Values(m));
    CanonicalRebuilds(t, m);
  }
}
