// Comments, and what the scanner makes of them: what stands in one is not seen.
module Comments {
  import opened Prelude
  import opened SqlScanner

  /** The inside of a block comment, with the comments nested in it, up to its end mark. */
  datatype Remark = End | Letter(c: char, rest: Remark) | Nested(inner: Remark, rest: Remark)

  function Written(r: Remark): (s: string)
    ensures s != []
  {
    match r
    case End => "*/"
    case Letter(c, rest) => [c] + Written(rest)
    case Nested(inner, rest) => "/*" + Written(inner) + Written(rest)
  }

  /** No letter makes a comment mark with what follows it. */
  predicate Plain(r: Remark) {
    match r
    case End => true
    case Letter(c, rest) =>
      !(c == '/' && Written(rest)[0] == '*') && !(c == '*' && Written(rest)[0] == '/') && Plain(rest)
    case Nested(inner, rest) => Plain(inner) && Plain(rest)
  }

  /** Where a comment ends, the scanner is where it was before, one level up. */
  function Outside(st: Scan): Scan {
    if st.depth == 1 then st.(depth := 0, mode := Normal) else if st.depth > 1 then st.(depth := st.depth - 1) else st
  }

  lemma EndTurn(st: Scan, rest: string, at: nat)
    requires st.mode == BlockComment && st.depth > 0
    ensures Run(st, "*/" + rest, at) == Run(Outside(st), rest, at + 2)
  {
    hide Run;
    assert "*/" + rest == ['*', '/'] + rest;
    RunTurn(st, "*/" + rest, at, Outside(st), "*/", rest);
  }

  lemma LetterTurn(st: Scan, c: char, tail: string, at: nat)
    requires st.mode == BlockComment && st.depth > 0 && tail != []
    requires !(c == '/' && tail[0] == '*') && !(c == '*' && tail[0] == '/')
    ensures Run(st, [c] + tail, at) == Run(st, tail, at + 1)
  {
    hide Run;
    RunTurn(st, [c] + tail, at, st, [c], tail);
  }

  lemma NestTurn(st: Scan, tail: string, at: nat)
    requires st.mode == BlockComment && st.depth > 0
    ensures Run(st, "/*" + tail, at) == Run(st.(depth := st.depth + 1), tail, at + 2)
    ensures Outside(st.(depth := st.depth + 1)) == st
  {
    hide Run;
    RunTurn(st, "/*" + tail, at, st.(depth := st.depth + 1), "/*", tail);
  }

  lemma {:induction false} RunRemark(st: Scan, r: Remark, rest: string, at: nat)
    requires st.mode == BlockComment && st.depth > 0 && Plain(r)
    ensures Run(st, Written(r) + rest, at) == Run(Outside(st), rest, at + |Written(r)|)
    decreases r
  {
    hide Run, Outside;
    match r {
      case End => EndTurn(st, rest, at);
      case Letter(c, more) =>
        AppendAssociates([c], Written(more), rest);
        assert (Written(more) + rest)[0] == Written(more)[0];
        LetterTurn(st, c, Written(more) + rest, at);
        RunRemark(st, more, rest, at + 1);
      case Nested(inner, more) =>
        var tail := Written(more) + rest;
        assert Written(r) + rest == "/*" + (Written(inner) + tail);
        NestTurn(st, Written(inner) + tail, at);
        RunRemark(st.(depth := st.depth + 1), inner, tail, at + 2);
        RunRemark(st, more, rest, at + 2 + |Written(inner)|);
    }
  }

  /** A block comment, whatever it says and whatever comments are nested in it, is scanned
      as a blank: it ends a word, and none of its words, semicolons and question marks is
      seen. */
  lemma BlockCommentIsBlank(st: Scan, r: Remark, rest: string, at: nat)
    requires st.mode == Normal && st.depth == 0 && Plain(r)
    ensures Run(st, "/*" + Written(r) + rest, at) == Run(Flush(st), rest, at + 2 + |Written(r)|)
  {
    hide Run;
    var inside := Flush(st).(mode := BlockComment, depth := 1);
    AppendAssociates("/*", Written(r), rest);
    RunTurn(st, "/*" + (Written(r) + rest), at, inside, "/*", Written(r) + rest);
    RunRemark(inside, r, rest, at + 2);
  }

  lemma {:induction false} RunLine(st: Scan, text: string, rest: string, at: nat)
    requires st.mode == LineComment && '\n' !in text && '\r' !in text
    ensures Run(st, text + rest, at) == Run(st, rest, at + |text|)
    decreases |text|
  {
    hide Run;
    if text == [] {
      assert text + rest == rest;
    } else {
      var tail := text[1..] + rest;
      assert text + rest == [text[0]] + tail;
      RunTurn(st, text + rest, at, st, [text[0]], tail);
      RunLine(st, text[1..], rest, at + 1);
    }
  }

  /** A line comment is scanned as a blank, up to the end of its line. */
  lemma LineCommentIsBlank(st: Scan, text: string, end: char, rest: string, at: nat)
    requires st.mode == Normal && '\n' !in text && '\r' !in text && (end == '\n' || end == '\r')
    ensures Run(st, "--" + text + [end] + rest, at) == Run(Flush(st), rest, at + 3 + |text|)
  {
    hide Run;
    var inside := Flush(st).(mode := LineComment);
    var tail := [end] + rest;
    assert "--" + text + [end] + rest == "--" + (text + tail);
    RunTurn(st, "--" + (text + tail), at, inside, "--", text + tail);
    RunLine(inside, text, tail, at + 2);
    RunTurn(inside, tail, at + 2 + |text|, Flush(st), [end], rest);
  }

  /** The last line's comment needs no end. */
  lemma LastLineIsBlank(st: Scan, text: string, at: nat)
    requires st.mode == Normal && '\n' !in text && '\r' !in text
    ensures Run(st, "--" + text, at) == Flush(st).(mode := LineComment)
  {
    var inside := Flush(st).(mode := LineComment);
    RunLine(inside, text, "", at + 2);
    assert text + "" == text;
    assert Run(inside, "", at + 2 + |text|) == inside;
    hide Run;
    RunTurn(st, "--" + text, at, inside, "--", text);
  }

  /** What is written in comments is not executed, as far as the scanner sees: a text and
      the same text with any comment in front report the same words and the same
      semicolon. */
  lemma CommentInFront(r: Remark, line: string, rest: string)
    requires Plain(r) && '\n' !in line && '\r' !in line
    ensures ScanText("/*" + Written(r) + rest).words == ScanText(rest).words
    ensures ScanText("/*" + Written(r) + rest).hasSemicolon == ScanText(rest).hasSemicolon
    ensures ScanText("--" + line + "\n" + rest).words == ScanText(rest).words
    ensures ScanText("--" + line + "\n" + rest).hasSemicolon == ScanText(rest).hasSemicolon
  {
    hide *;
    Starts();
    BlockCommentIsBlank(START, r, rest, 0);
    LineCommentIsBlank(START, line, '\n', rest, 0);
    SameTokens("/*" + Written(r) + rest, rest, 2 + |Written(r)|);
    assert "--" + line + ['\n'] + rest == "--" + line + "\n" + rest;
    SameTokens("--" + line + "\n" + rest, rest, 3 + |line|);
  }

  lemma Starts()
    ensures START.mode == Normal && START.depth == 0 && Flush(START) == START
  {
  }

  lemma SameTokens(text: string, rest: string, at: nat)
    requires Run(START, text, 0) == Run(START, rest, at)
    ensures ScanText(text).words == ScanText(rest).words && ScanText(text).hasSemicolon == ScanText(rest).hasSemicolon
  {
    OffsetOnly(START, START, rest, at, 0);
    hide Run;
  }

  predicate AlikeButMarks(a: Scan, b: Scan) {
    a.(marks := []) == b.(marks := [])
  }

  lemma {:induction false} OffsetOnly(a: Scan, b: Scan, s: string, at: nat, other: nat)
    requires AlikeButMarks(a, b) && (a.mode == BlockComment ==> 0 < a.depth)
    ensures AlikeButMarks(Run(a, s, at), Run(b, s, other))
    decreases |s|
  {
    hide Turn, AlikeButMarks;
    if s != [] {
      OneTurn(a, b, s, at, other);
      var t, u := Turn(a, s, at), Turn(b, s, other);
      OffsetOnly(t.0, u.0, s[t.1..], at + t.1, other + u.1);
    }
  }

  lemma OneTurn(a: Scan, b: Scan, s: string, at: nat, other: nat)
    requires AlikeButMarks(a, b) && (a.mode == BlockComment ==> 0 < a.depth) && s != []
    ensures (b.mode == BlockComment ==> 0 < b.depth) && Turn(a, s, at).1 == Turn(b, s, other).1
    ensures AlikeButMarks(Turn(a, s, at).0, Turn(b, s, other).0)
  {
  }
}
