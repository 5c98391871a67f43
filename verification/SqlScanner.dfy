// The repository's own SQL scanner, `executable_sql_tokens`, and what it sees in
// planned text.
module SqlScanner {
  import opened Prelude
  import opened SqlText

  datatype Mode = Normal | SingleQuoted | DoubleQuoted | LineComment | BlockComment

  /** The scanner's variables. `marks` lists the offsets of the `?` met in the
      Normal state; the source keeps no such list. */
  datatype Scan = Scan(mode: Mode, depth: nat, word: string, words: seq<string>, hasSemicolon: bool, marks: seq<nat>)

  const START := Scan(Normal, 0, "", [], false, [])

  function Flush(st: Scan): Scan {
    if st.word == "" then st else st.(words := st.words + [st.word], word := "")
  }

  /** One turn of the scanner's loop at the head of `s`, which lies at offset `at`:
      the new variables and how many characters the turn consumed. */
  function Turn(st: Scan, s: string, at: nat): (r: (Scan, nat))
    requires s != []
    requires st.mode == BlockComment ==> 0 < st.depth
    ensures 1 <= r.1 <= |s|
    ensures r.0.mode == BlockComment ==> 0 < r.0.depth
  {
    var ch := s[0];
    var peek := if |s| > 1 then Some(s[1]) else None;
    match st.mode
    case Normal =>
      if ch == '-' && peek == Some('-') then (Flush(st).(mode := LineComment), 2)
      else if ch == '/' && peek == Some('*') then (Flush(st).(mode := BlockComment, depth := 1), 2)
      else if ch == '\'' then (Flush(st).(mode := SingleQuoted), 1)
      else if ch == '"' then (Flush(st).(mode := DoubleQuoted), 1)
      else if ch == ';' then (Flush(st).(hasSemicolon := true), 1)
      else if IsWordChar(ch) then (st.(word := st.word + [AsciiLowerChar(ch)]), 1)
      else if ch == '?' then (Flush(st).(marks := st.marks + [at]), 1)
      else (Flush(st), 1)
    case SingleQuoted =>
      if ch == '\\' then (st, if |s| > 1 then 2 else 1)
      else if ch == '\'' && peek == Some('\'') then (st, 2)
      else if ch == '\'' then (st.(mode := Normal), 1)
      else (st, 1)
    case DoubleQuoted =>
      if ch == '"' && peek == Some('"') then (st, 2)
      else if ch == '"' then (st.(mode := Normal), 1)
      else (st, 1)
    case LineComment =>
      if ch == '\n' || ch == '\r' then (st.(mode := Normal), 1) else (st, 1)
    case BlockComment =>
      if ch == '/' && peek == Some('*') then (st.(depth := st.depth + 1), 2)
      else if ch == '*' && peek == Some('/') then
        (if st.depth == 1 then st.(depth := 0, mode := Normal) else st.(depth := st.depth - 1), 2)
      else (st, 1)
  }

  function Run(st: Scan, s: string, at: nat): Scan
    requires st.mode == BlockComment ==> 0 < st.depth
    decreases |s|
  {
    if s == [] then st
    else
      var t := Turn(st, s, at);
      Run(t.0, s[t.1..], at + t.1)
  }

  function ScanText(sql: string): Scan {
    Flush(Run(START, sql, 0))
  }

  /** The scanner's loop over a character cursor. */
  method ExecutableSqlTokens(sql: string) returns (words: seq<string>, hasSemicolon: bool, ghost final: Scan)
    ensures final == ScanText(sql)
    ensures words == ScanText(sql).words
    ensures hasSemicolon == ScanText(sql).hasSemicolon
  {
    hide Run;
    var state := Normal;
    var commentDepth: nat := 0;
    var word := "";
    words := [];
    hasSemicolon := false;
    ghost var marks := [];
    var i := 0;
    assert sql[0..] == sql;
    while i < |sql|
      invariant 0 <= i <= |sql|
      invariant state == BlockComment ==> 0 < commentDepth
      invariant Run(START, sql, 0) == Run(Scan(state, commentDepth, word, words, hasSemicolon, marks), sql[i..], i)
    {
      ghost var before := Scan(state, commentDepth, word, words, hasSemicolon, marks);
      ghost var start := i;
      ghost var turn := Turn(before, sql[i..], i);
      var ch := sql[i];
      i := i + 1;
      match state {
        case Normal =>
          if IsWordChar(ch) {
            word := word + [AsciiLowerChar(ch)];
          } else {
            if word != "" {
              words := words + [word];
              word := "";
            }
            if ch == '-' && i < |sql| && sql[i] == '-' {
              i := i + 1;
              state := LineComment;
            } else if ch == '/' && i < |sql| && sql[i] == '*' {
              i := i + 1;
              commentDepth := 1;
              state := BlockComment;
            } else if ch == '\'' {
              state := SingleQuoted;
            } else if ch == '"' {
              state := DoubleQuoted;
            } else if ch == ';' {
              hasSemicolon := true;
            } else if ch == '?' {
              marks := marks + [start];
            }
          }
        case SingleQuoted =>
          if ch == '\\' {
            if i < |sql| {
              i := i + 1;
            }
          } else if ch == '\'' {
            if i < |sql| && sql[i] == '\'' {
              i := i + 1;
            } else {
              state := Normal;
            }
          }
        case DoubleQuoted =>
          if ch == '"' {
            if i < |sql| && sql[i] == '"' {
              i := i + 1;
            } else {
              state := Normal;
            }
          }
        case LineComment =>
          if ch == '\n' || ch == '\r' {
            state := Normal;
          }
        case BlockComment =>
          if ch == '/' && i < |sql| && sql[i] == '*' {
            i := i + 1;
            commentDepth := commentDepth + 1;
          } else if ch == '*' && i < |sql| && sql[i] == '/' {
            i := i + 1;
            commentDepth := commentDepth - 1;
            if commentDepth == 0 {
              state := Normal;
            }
          }
      }
      assert turn == (Scan(state, commentDepth, word, words, hasSemicolon, marks), i - start);
      assert sql[start..] == sql[start..i] + sql[i..];
      RunTurn(before, sql[start..], start, turn.0, sql[start..i], sql[i..]);
    }
    assert sql[i..] == [];
    RunEmpty(Scan(state, commentDepth, word, words, hasSemicolon, marks), i);
    final := Flush(Scan(state, commentDepth, word, words, hasSemicolon, marks));
    if word != "" {
      words := words + [word];
    }
  }

  // ----- one piece at a time -----

  /** What scanning one piece does to the variables. */
  function Effect(st: Scan, p: Piece, at: nat): Scan {
    match p
    case Word(k) => st.(word := st.word + AsciiLower(KeywordText(k)))
    case Param(_) => Flush(st).(marks := st.marks + [at])
    case _ => Flush(st)
  }

  function EffectAll(st: Scan, ps: seq<Piece>, at: nat): Scan
    decreases |ps|
  {
    if ps == [] then st else EffectAll(Effect(st, ps[0], at), ps[1..], at + |Render(ps[0])|)
  }

  lemma {:induction false} RunWord(st: Scan, text: string, rest: string, at: nat)
    requires st.mode == Normal
    requires forall i :: 0 <= i < |text| ==> IsWordChar(text[i])
    ensures Run(st, text + rest, at) == Run(st.(word := st.word + AsciiLower(text)), rest, at + |text|)
    decreases |text|
  {
    hide Run;
    if text == [] {
      assert text + rest == rest;
      assert st.word + AsciiLower(text) == st.word;
    } else {
      var next := st.(word := st.word + [AsciiLowerChar(text[0])]);
      var tail := text[1..] + rest;
      assert text + rest == [text[0]] + tail;
      RunTurn(st, text + rest, at, next, [text[0]], tail);
      RunWord(next, text[1..], rest, at + 1);
      assert next.word + AsciiLower(text[1..]) == st.word + AsciiLower(text);
    }
  }

  lemma TurnDoubled(st: Scan, c: char, tail: string, at: nat)
    requires st.mode == DoubleQuoted
    ensures Turn(st, DoubleQuote(c) + tail, at) == (st, |DoubleQuote(c)|)
  {
    if c == '"' {
      assert (DoubleQuote(c) + tail)[0] == (DoubleQuote(c) + tail)[1] == '"';
    } else {
      assert (DoubleQuote(c) + tail)[0] == c;
    }
  }

  lemma RunClosing(st: Scan, rest: string, at: nat)
    requires st.mode == DoubleQuoted && (rest == [] || rest[0] != '"')
    ensures Run(st, DoubleQuotes("") + "\"" + rest, at) == Run(st.(mode := Normal), rest, at + 1)
    ensures DoubleQuotes("") == ""
  {
    hide Run;
    assert DoubleQuotes("") + "\"" + rest == "\"" + rest;
    assert rest != [] ==> ("\"" + rest)[1] == rest[0];
    RunTurn(st, "\"" + rest, at, st.(mode := Normal), "\"", rest);
  }

  lemma {:induction false} RunIdentBody(st: Scan, name: string, rest: string, at: nat)
    requires st.mode == DoubleQuoted
    requires rest == [] || rest[0] != '"'
    ensures Run(st, DoubleQuotes(name) + "\"" + rest, at)
         == Run(st.(mode := Normal), rest, at + |DoubleQuotes(name)| + 1)
    decreases |name|
  {
    hide *;
    if name == [] {
      RunClosing(st, rest, at);
    } else {
      var tail := DoubleQuotes(name[1..]) + "\"" + rest;
      DoubledParts(name, rest);
      TurnDoubled(st, name[0], tail, at);
      RunTurn(st, DoubleQuote(name[0]) + tail, at, st, DoubleQuote(name[0]), tail);
      RunIdentBody(st, name[1..], rest, at + |DoubleQuote(name[0])|);
    }
  }

  lemma {:induction false} RunLiteralBody(st: Scan, value: string, rest: string, at: nat)
    requires st.mode == SingleQuoted
    requires rest == [] || rest[0] != '\''
    ensures Run(st, EscapeLiteral(value) + "'" + rest, at)
         == Run(st.(mode := Normal), rest, at + |EscapeLiteral(value)| + 1)
    decreases |value|
  {
    hide Run;
    var s := EscapeLiteral(value) + "'" + rest;
    if value == [] {
      RunTurn(st, s, at, st.(mode := Normal), "'", rest);
    } else {
      var tail := EscapeLiteral(value[1..]) + "'" + rest;
      var escaped := EscapeChar(value[0]);
      assert s == escaped + tail;
      RunTurn(st, s, at, st, escaped, tail);
      RunLiteralBody(st, value[1..], rest, at + |escaped|);
    }
  }

  lemma RunEmpty(st: Scan, at: nat)
    requires st.mode == BlockComment ==> 0 < st.depth
    ensures Run(st, "", at) == st
  {
  }

  /** One turn of the loop, given what it consumes and what it leaves. */
  lemma RunTurn(st: Scan, s: string, at: nat, next: Scan, consumed: string, rest: string)
    requires consumed != [] && s == consumed + rest
    requires st.mode == BlockComment ==> 0 < st.depth
    requires Turn(st, s, at) == (next, |consumed|)
    ensures Run(st, s, at) == Run(next, rest, at + |consumed|)
  {
    hide Turn;
    assert s[|consumed|..] == rest;
  }

  predicate IsSymbolChar(c: char) {
    c in "()=<>,.:!"
  }

  lemma TurnSymbol(st: Scan, c: char, rest: string, at: nat)
    requires st.mode == Normal && IsSymbolChar(c)
    ensures Turn(st, [c] + rest, at) == (Flush(st), 1)
  {
  }

  lemma SymbolCharacters(text: string)
    requires IsOperator(text) || IsBracket(text)
    ensures if |text| == 1 then text == [text[0]] && IsSymbolChar(text[0])
            else |text| == 2 && text == [text[0]] + [text[1]] && IsSymbolChar(text[0]) && IsSymbolChar(text[1])
  {
  }

  lemma RunOneSymbol(st: Scan, c: char, rest: string, at: nat)
    requires st.mode == Normal && IsSymbolChar(c)
    ensures Run(st, [c] + rest, at) == Run(Flush(st), rest, at + 1)
  {
    hide *;
    TurnSymbol(st, c, rest, at);
    RunTurn(st, [c] + rest, at, Flush(st), [c], rest);
  }

  lemma RunSymbol(st: Scan, text: string, rest: string, at: nat)
    requires st.mode == Normal && (IsOperator(text) || IsBracket(text))
    ensures Run(st, text + rest, at) == Run(Flush(st), rest, at + |text|)
  {
    hide *;
    SymbolCharacters(text);
    FlushTwice(st);
    if |text| == 1 {
      RunOneSymbol(st, text[0], rest, at);
    } else {
      AppendAssociates([text[0]], [text[1]], rest);
      RunOneSymbol(st, text[0], [text[1]] + rest, at);
      RunOneSymbol(Flush(st), text[1], rest, at + 1);
    }
  }

  lemma FlushTwice(st: Scan)
    ensures Flush(Flush(st)) == Flush(st) && Flush(st).mode == st.mode
  {
  }

  lemma RunIdent(st: Scan, name: string, rest: string, at: nat)
    requires st.mode == Normal && Follows(Ident(name), rest)
    ensures Run(st, QuoteIdentifier(name) + rest, at) == Run(Flush(st), rest, at + |QuoteIdentifier(name)|)
  {
    hide Run;
    var body := DoubleQuotes(name) + "\"" + rest;
    var inside := Flush(st).(mode := DoubleQuoted);
    assert QuoteIdentifier(name) + rest == "\"" + body;
    RunTurn(st, "\"" + body, at, inside, "\"", body);
    RunIdentBody(inside, name, rest, at + 1);
    assert inside.(mode := Normal) == Flush(st);
  }

  lemma RunLiteral(st: Scan, value: string, rest: string, at: nat)
    requires st.mode == Normal && Follows(Literal(value), rest)
    ensures Run(st, Render(Literal(value)) + rest, at) == Run(Flush(st), rest, at + |Render(Literal(value))|)
  {
    hide Run;
    var body := EscapeLiteral(value) + "'" + rest;
    var inside := Flush(st).(mode := SingleQuoted);
    assert Render(Literal(value)) + rest == "'" + body;
    RunTurn(st, "'" + body, at, inside, "'", body);
    RunLiteralBody(inside, value, rest, at + 1);
    assert inside.(mode := Normal) == Flush(st);
  }

  lemma RunPiece(st: Scan, p: Piece, rest: string, at: nat)
    requires st.mode == Normal && PieceOk(p) && Follows(p, rest)
    ensures Run(st, Render(p) + rest, at) == Run(Effect(st, p, at), rest, at + |Render(p)|)
  {
    hide Run;
    match p {
      case Word(k) =>
        KeywordIsWord(k);
        RunWord(st, KeywordText(k), rest, at);
      case Ident(name) => RunIdent(st, name, rest, at);
      case Literal(value) => RunLiteral(st, value, rest, at);
      case Param(_) => RunTurn(st, "?" + rest, at, Effect(st, p, at), "?", rest);
      case Sym(text) => RunSymbol(st, text, rest, at);
      case Space => RunTurn(st, " " + rest, at, Flush(st), " ", rest);
    }
  }

  lemma {:induction false} RunRendered(st: Scan, ps: seq<Piece>, at: nat)
    requires st.mode == Normal && Chained(ps)
    ensures Run(st, RenderAll(ps), at) == EffectAll(st, ps, at)
    ensures EffectAll(st, ps, at).mode == Normal
    decreases |ps|
  {
    hide Run, Render, Fits;
    if ps == [] {
      assert Run(st, "", at) == st by {
        RunEmpty(st, at);
      }
    } else {
      if |ps| > 1 {
        FitsFollows(ps[0], ps[1], RenderAll(ps[1..][1..]));
      }
      RunPiece(st, ps[0], RenderAll(ps[1..]), at);
      RunRendered(Effect(st, ps[0], at), ps[1..], at + |Render(ps[0])|);
    }
  }

  // ----- what the scanner reports -----

  /** The fixed words among the pieces, lower-cased. */
  function Words(ps: seq<Piece>): seq<string> {
    if ps == [] then []
    else (if ps[0].Word? then [AsciiLower(KeywordText(ps[0].keyword))] else []) + Words(ps[1..])
  }

  /** The offsets of the placeholders in the rendered text. */
  function ParamOffsets(ps: seq<Piece>, at: nat): seq<nat> {
    if ps == [] then []
    else (if ps[0].Param? then [at] else []) + ParamOffsets(ps[1..], at + |Render(ps[0])|)
  }

  lemma {:induction false} EffectAllReports(st: Scan, ps: seq<Piece>, at: nat)
    requires Chained(ps)
    requires ps != [] && ps[0].Word? ==> st.word == ""
    ensures var end := Flush(EffectAll(st, ps, at));
            && end.words == Flush(st).words + Words(ps)
            && end.marks == st.marks + ParamOffsets(ps, at)
            && end.hasSemicolon == st.hasSemicolon
    decreases |ps|
  {
    hide Effect, Render;
    if ps != [] {
      var p, rest := ps[0], ps[1..];
      var next := Effect(st, p, at);
      var end := at + |Render(p)|;
      assert EffectAll(st, ps, at) == EffectAll(next, rest, end);
      assert Words(ps) == (if p.Word? then [AsciiLower(KeywordText(p.keyword))] else []) + Words(rest);
      assert ParamOffsets(ps, at) == (if p.Param? then [at] else []) + ParamOffsets(rest, end);
      if rest != [] {
        assert Fits(p, rest[0]);
      }
      assert Chained(rest) && PieceOk(p);
      assert p.Word? ==> st.word == "";
      assert p.Word? && rest != [] ==> !rest[0].Word?;
      hide *;
      EffectReports(st, p, at);
      EffectAllReports(next, rest, end);
      AppendAssociates(Flush(st).words, if p.Word? then [AsciiLower(KeywordText(p.keyword))] else [], Words(rest));
      AppendAssociates(st.marks, if p.Param? then [at] else [], ParamOffsets(rest, end));
    } else {
      assert Flush(st).words + Words(ps) == Flush(st).words;
      assert st.marks + ParamOffsets(ps, at) == st.marks;
    }
  }

  lemma EffectReports(st: Scan, p: Piece, at: nat)
    requires PieceOk(p)
    requires p.Word? ==> st.word == ""
    ensures var next := Effect(st, p, at);
            && Flush(next).words == Flush(st).words + (if p.Word? then [AsciiLower(KeywordText(p.keyword))] else [])
            && Flush(next).marks == st.marks + (if p.Param? then [at] else [])
            && Flush(next).hasSemicolon == st.hasSemicolon
            && (next.word != "" ==> p.Word?)
  {
    if p.Word? {
      assert st.word + AsciiLower(KeywordText(p.keyword)) == AsciiLower(KeywordText(p.keyword));
    }
  }

  /** On any chain of pieces, whatever the quoted names and literals hold, the
      scanner ends in the Normal state, finds no semicolon, reports exactly the
      fixed words in order, and meets exactly the placeholders' question marks. */
  lemma ScannerSeesOnlyPieces(ps: seq<Piece>)
    requires Chained(ps)
    ensures var scan := ScanText(RenderAll(ps));
            && scan.mode == Normal
            && !scan.hasSemicolon
            && scan.words == Words(ps)
            && scan.marks == ParamOffsets(ps, 0)
  {
    RunRendered(START, ps, 0);
    EffectAllReports(START, ps, 0);
  }
}
