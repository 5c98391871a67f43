// The text the planner writes, and an independent lexer for it.
//
// Planned text is a sequence of pieces; `RenderAll` is the exact text. `Lex`
// reads text back with no knowledge of pieces: double-quoted identifiers with
// doubled quotes, single-quoted literals with doubled quotes and backslash
// escapes, maximal words and maximal operators.
module SqlText {
  import opened Prelude

  datatype TypedBinding = TypedBinding(bindingType: string, value: string)

  /** Every unquoted word the planner writes. */
  datatype Keyword =
    | SELECT | FROM | AT | TIMESTAMP | TIMESTAMP_TZ | WHERE | AND | OR | NOT
    | BETWEEN | IN | IS | NULL | POSITION | ZERO | LIMIT

  function KeywordText(k: Keyword): string {
    match k
    case SELECT => "SELECT"
    case FROM => "FROM"
    case AT => "AT"
    case TIMESTAMP => "TIMESTAMP"
    case TIMESTAMP_TZ => "TIMESTAMP_TZ"
    case WHERE => "WHERE"
    case AND => "AND"
    case OR => "OR"
    case NOT => "NOT"
    case BETWEEN => "BETWEEN"
    case IN => "IN"
    case IS => "IS"
    case NULL => "NULL"
    case POSITION => "POSITION"
    case ZERO => "0"
    case LIMIT => "LIMIT"
  }

  lemma KeywordIsWord(k: Keyword)
    ensures IsWordText(KeywordText(k))
  {
  }

  function KeywordOf(text: string): Option<Keyword> {
    match text
    case "SELECT" => Some(SELECT)
    case "FROM" => Some(FROM)
    case "AT" => Some(AT)
    case "TIMESTAMP" => Some(TIMESTAMP)
    case "TIMESTAMP_TZ" => Some(TIMESTAMP_TZ)
    case "WHERE" => Some(WHERE)
    case "AND" => Some(AND)
    case "OR" => Some(OR)
    case "NOT" => Some(NOT)
    case "BETWEEN" => Some(BETWEEN)
    case "IN" => Some(IN)
    case "IS" => Some(IS)
    case "NULL" => Some(NULL)
    case "POSITION" => Some(POSITION)
    case "0" => Some(ZERO)
    case "LIMIT" => Some(LIMIT)
    case _ => None
  }

  lemma KeywordReadsBack(k: Keyword)
    ensures KeywordOf(KeywordText(k)) == Some(k)
  {
  }

  datatype Piece =
    | Word(keyword: Keyword)
    | Ident(name: string)
    | Literal(value: string)
    | Param(binding: TypedBinding)
    | Sym(text: string)
    | Space

  // ----- quoting -----

  /** `identifier.replace('"', "\"\"")`. */
  function DoubleQuotes(s: string): string {
    if s == [] then []
    else (if s[0] == '"' then "\"\"" else [s[0]]) + DoubleQuotes(s[1..])
  }

  function QuoteIdentifier(identifier: string): string {
    "\"" + DoubleQuotes(identifier) + "\""
  }

  function QuoteQualifiedObject(database: string, schema: string, object_: string): string {
    QuoteIdentifier(database) + "." + QuoteIdentifier(schema) + "." + QuoteIdentifier(object_)
  }

  function EscapeChar(c: char): string {
    if c == '\\' then "\\\\" else if c == '\'' then "''" else [c]
  }

  function EscapeLiteral(s: string): string {
    if s == [] then [] else EscapeChar(s[0]) + EscapeLiteral(s[1..])
  }

  lemma {:induction false} EscapeLiteralSnoc(s: string, c: char)
    ensures EscapeLiteral(s + [c]) == EscapeLiteral(s) + EscapeChar(c)
  {
    if s == [] {
      assert (s + [c])[1..] == [];
    } else {
      assert (s + [c])[1..] == s[1..] + [c];
      EscapeLiteralSnoc(s[1..], c);
    }
  }

  method EscapeSnowflakeLiteral(value: string) returns (escaped: string)
    ensures escaped == EscapeLiteral(value)
  {
    escaped := "";
    for i := 0 to |value|
      invariant escaped == EscapeLiteral(value[..i])
    {
      EscapeLiteralSnoc(value[..i], value[i]);
      assert value[..i + 1] == value[..i] + [value[i]];
      if value[i] == '\\' {
        escaped := escaped + "\\\\";
      } else if value[i] == '\'' {
        escaped := escaped + "''";
      } else {
        escaped := escaped + [value[i]];
      }
    }
    assert value[..|value|] == value;
  }

  // ----- rendering -----

  function Render(p: Piece): string {
    match p
    case Word(k) => KeywordText(k)
    case Ident(name) => QuoteIdentifier(name)
    case Literal(value) => "'" + EscapeLiteral(value) + "'"
    case Param(_) => "?"
    case Sym(text) => text
    case Space => " "
  }

  function RenderAll(ps: seq<Piece>): string {
    if ps == [] then "" else Render(ps[0]) + RenderAll(ps[1..])
  }

  lemma {:induction false} RenderConcat(a: seq<Piece>, b: seq<Piece>)
    ensures RenderAll(a + b) == RenderAll(a) + RenderAll(b)
  {
    AppendSplits(a, b);
    if a != [] {
      RenderConcat(a[1..], b);
      AppendAssociates(Render(a[0]), RenderAll(a[1..]), RenderAll(b));
    }
  }

  /** The bindings of the placeholders, left to right. */
  function Params(ps: seq<Piece>): seq<TypedBinding> {
    if ps == [] then []
    else (if ps[0].Param? then [ps[0].binding] else []) + Params(ps[1..])
  }

  lemma {:induction false} ParamsConcat(a: seq<Piece>, b: seq<Piece>)
    ensures Params(a + b) == Params(a) + Params(b)
  {
    AppendSplits(a, b);
    if a != [] {
      ParamsConcat(a[1..], b);
      AppendAssociates(if a[0].Param? then [a[0].binding] else [], Params(a[1..]), Params(b));
    }
  }

  // ----- which pieces may stand side by side -----

  predicate IsOperator(text: string) {
    text in ["=", "!=", "<", "<=", ">", ">=", "=>", "::"]
  }

  predicate IsBracket(text: string) {
    text in ["(", ")", ",", "."]
  }

  predicate IsWordText(text: string) {
    0 < |text| && forall i :: 0 <= i < |text| ==> IsWordChar(text[i])
  }

  predicate PieceOk(p: Piece) {
    match p
    case Sym(text) => IsOperator(text) || IsBracket(text)
    case _ => true
  }

  predicate Solid(p: Piece) {
    !p.Sym? && !p.Space?
  }

  /** Neither piece changes how the other is read. */
  predicate Fits(p: Piece, q: Piece) {
    && !(Solid(p) && Solid(q))
    && (p.Sym? && q.Sym? ==> IsBracket(p.text))
  }

  predicate Chained(ps: seq<Piece>) {
    && (forall i :: 0 <= i < |ps| ==> PieceOk(ps[i]))
    && (forall i :: 0 <= i < |ps| - 1 ==> Fits(ps[i], ps[i + 1]))
  }

  lemma ChainedConcat(a: seq<Piece>, b: seq<Piece>)
    requires Chained(a) && Chained(b)
    requires a != [] && b != [] ==> Fits(a[|a| - 1], b[0])
    ensures Chained(a + b)
  {
    var ps := a + b;
    forall i | 0 <= i < |ps| - 1
      ensures Fits(ps[i], ps[i + 1])
    {
      if i < |a| - 1 {
        assert Fits(a[i], a[i + 1]);
      } else if i >= |a| {
        assert Fits(b[i - |a|], b[i - |a| + 1]);
      }
    }
  }

  // ----- the lexer -----

  /** A keyword, or a bare word that is none. */
  datatype Tok = TWord(keyword: Keyword) | TName(text: string) | TIdent(name: string) | TLit(value: string) | TParam | TSym(text: string)

  /** A quoted body after its opening quote: its meaning and its length up to and
      including the closing quote. */
  datatype Body = Body(value: string, length: nat)

  function ReadIdent(s: string): (r: Option<Body>)
    ensures r.Some? ==> 0 < r.value.length <= |s|
  {
    if s == [] then None
    else if s[0] == '"' then
      if |s| >= 2 && s[1] == '"' then
        match ReadIdent(s[2..])
        case None => None
        case Some(b) => Some(Body(['"'] + b.value, b.length + 2))
      else Some(Body("", 1))
    else
      match ReadIdent(s[1..])
      case None => None
      case Some(b) => Some(Body([s[0]] + b.value, b.length + 1))
  }

  function ReadLiteral(s: string): (r: Option<Body>)
    ensures r.Some? ==> 0 < r.value.length <= |s|
  {
    if s == [] then None
    else if s[0] == '\'' then
      if |s| >= 2 && s[1] == '\'' then
        match ReadLiteral(s[2..])
        case None => None
        case Some(b) => Some(Body(['\''] + b.value, b.length + 2))
      else Some(Body("", 1))
    else if s[0] == '\\' then
      if |s| >= 2 && (s[1] == '\\' || s[1] == '\'') then
        match ReadLiteral(s[2..])
        case None => None
        case Some(b) => Some(Body([s[1]] + b.value, b.length + 2))
      else None
    else
      match ReadLiteral(s[1..])
      case None => None
      case Some(b) => Some(Body([s[0]] + b.value, b.length + 1))
  }

  function WordLength(s: string): (n: nat)
    ensures n <= |s|
  {
    if s != [] && IsWordChar(s[0]) then 1 + WordLength(s[1..]) else 0
  }

  function WordTok(text: string): Tok {
    match KeywordOf(text)
    case Some(k) => TWord(k)
    case None => TName(text)
  }

  function Cons(t: Tok, r: Option<seq<Tok>>): Option<seq<Tok>> {
    match r
    case None => None
    case Some(ts) => Some([t] + ts)
  }

  function Lex(s: string): Option<seq<Tok>>
    decreases |s|
  {
    if s == [] then Some([])
    else if s[0] == ' ' then Lex(s[1..])
    else if s[0] == '?' then Cons(TParam, Lex(s[1..]))
    else if s[0] == '"' then
      match ReadIdent(s[1..])
      case None => None
      case Some(b) => Cons(TIdent(b.value), Lex(s[1 + b.length..]))
    else if s[0] == '\'' then
      match ReadLiteral(s[1..])
      case None => None
      case Some(b) => Cons(TLit(b.value), Lex(s[1 + b.length..]))
    else if IsWordChar(s[0]) then
      Cons(WordTok(s[..1 + WordLength(s[1..])]), Lex(s[1 + WordLength(s[1..])..]))
    else if |s| >= 2 && IsOperator(s[..2]) then Cons(TSym(s[..2]), Lex(s[2..]))
    else if IsOperator(s[..1]) || IsBracket(s[..1]) then Cons(TSym(s[..1]), Lex(s[1..]))
    else None
  }

  function TokOf(p: Piece): seq<Tok> {
    match p
    case Word(k) => [TWord(k)]
    case Ident(name) => [TIdent(name)]
    case Literal(value) => [TLit(value)]
    case Param(_) => [TParam]
    case Sym(text) => [TSym(text)]
    case Space => []
  }

  function Toks(ps: seq<Piece>): seq<Tok> {
    if ps == [] then [] else TokOf(ps[0]) + Toks(ps[1..])
  }

  lemma {:induction false} ToksConcat(a: seq<Piece>, b: seq<Piece>)
    ensures Toks(a + b) == Toks(a) + Toks(b)
  {
    AppendSplits(a, b);
    if a != [] {
      ToksConcat(a[1..], b);
      AppendAssociates(TokOf(a[0]), Toks(a[1..]), Toks(b));
    }
  }

  // ----- reading back what quoting wrote -----

  function DoubleQuote(c: char): string {
    if c == '"' then "\"\"" else [c]
  }

  /** One character of a quoted body. */
  lemma ReadDoubled(c: char, tail: string, value: string, n: nat)
    requires ReadIdent(tail) == Some(Body(value, n))
    ensures ReadIdent(DoubleQuote(c) + tail) == Some(Body([c] + value, |DoubleQuote(c)| + n))
  {
    AppendSplits(DoubleQuote(c), tail);
    if c == '"' {
      assert (DoubleQuote(c) + tail)[1] == '"';
    }
  }

  lemma DoubledParts(name: string, rest: string)
    requires name != []
    ensures DoubleQuotes(name) == DoubleQuote(name[0]) + DoubleQuotes(name[1..])
    ensures DoubleQuotes(name) + "\"" + rest == DoubleQuote(name[0]) + (DoubleQuotes(name[1..]) + "\"" + rest)
    ensures name == [name[0]] + name[1..]
  {
    assert name == [name[0]] + name[1..];
    var x, y := DoubleQuote(name[0]), DoubleQuotes(name[1..]);
    assert DoubleQuotes(name) == x + y;
    hide *;
    AppendAssociates(x, y, "\"");
    AppendAssociates(x, y + "\"", rest);
  }

  lemma ReadClosing(rest: string)
    requires rest == [] || rest[0] != '"'
    ensures ReadIdent(DoubleQuotes("") + "\"" + rest) == Some(Body("", 1)) && DoubleQuotes("") == ""
  {
    assert DoubleQuotes("") + "\"" + rest == "\"" + rest;
  }

  /** Doubling the quotes loses nothing: the body reads back as the name. */
  lemma {:induction false} QuotedIdentifierReadsBack(name: string, rest: string)
    requires rest == [] || rest[0] != '"'
    ensures ReadIdent(DoubleQuotes(name) + "\"" + rest) == Some(Body(name, |DoubleQuotes(name)| + 1))
  {
    hide *;
    if name == [] {
      ReadClosing(rest);
    } else {
      QuotedIdentifierReadsBack(name[1..], rest);
      DoubledParts(name, rest);
      ReadDoubled(name[0], DoubleQuotes(name[1..]) + "\"" + rest, name[1..], |DoubleQuotes(name[1..])| + 1);
    }
  }

  lemma ReadPair(a: char, b: char, tail: string, value: string, n: nat)
    requires ReadLiteral(tail) == Some(Body(value, n))
    requires (a == '\'' && b == '\'') || (a == '\\' && b == '\\')
    ensures ReadLiteral([a, b] + tail) == Some(Body([b] + value, 2 + n))
  {
    var s := [a, b] + tail;
    AppendSplits([a, b], tail);
    assert s[0] == a && s[1] == b && s[2..] == tail;
  }

  lemma ReadPlain(c: char, tail: string, value: string, n: nat)
    requires ReadLiteral(tail) == Some(Body(value, n)) && c != '\'' && c != '\\'
    ensures ReadLiteral([c] + tail) == Some(Body([c] + value, 1 + n))
  {
    var s := [c] + tail;
    AppendSplits([c], tail);
    assert s[0] == c && s[1..] == tail;
  }

  lemma EscapedIs(c: char)
    ensures EscapeChar(c) == if c == '\\' || c == '\'' then [c, c] else [c]
  {
  }

  lemma ReadEscaped(c: char, tail: string, value: string, n: nat)
    requires ReadLiteral(tail) == Some(Body(value, n))
    ensures ReadLiteral(EscapeChar(c) + tail) == Some(Body([c] + value, |EscapeChar(c)| + n))
  {
    hide *;
    EscapedIs(c);
    if c == '\\' || c == '\'' {
      ReadPair(c, c, tail, value, n);
    } else {
      ReadPlain(c, tail, value, n);
    }
  }

  lemma EscapedTail(c: char, body: string, rest: string)
    ensures EscapeChar(c) + body + "'" + rest == EscapeChar(c) + (body + "'" + rest)
  {
    AppendAssociates(EscapeChar(c), body, "'");
    AppendAssociates(EscapeChar(c), body + "'", rest);
  }

  /** Escaping loses nothing: the body reads back as the value. */
  lemma {:induction false} EscapedLiteralReadsBack(value: string, rest: string)
    requires rest == [] || rest[0] != '\''
    ensures ReadLiteral(EscapeLiteral(value) + "'" + rest) == Some(Body(value, |EscapeLiteral(value)| + 1))
  {
    hide *;
    if value == [] {
      ReadLiteralEnd(rest);
    } else {
      var body := EscapeLiteral(value[1..]);
      EscapedParts(value);
      EscapedLiteralReadsBack(value[1..], rest);
      ReadEscaped(value[0], body + "'" + rest, value[1..], |body| + 1);
      EscapedTail(value[0], body, rest);
    }
  }

  lemma ReadLiteralEnd(rest: string)
    requires rest == [] || rest[0] != '\''
    ensures ReadLiteral(EscapeLiteral("") + "'" + rest) == Some(Body("", 1)) && EscapeLiteral("") == ""
  {
    assert EscapeLiteral("") + "'" + rest == "'" + rest;
  }

  lemma EscapedParts(value: string)
    requires value != []
    ensures EscapeLiteral(value) == EscapeChar(value[0]) + EscapeLiteral(value[1..])
    ensures value == [value[0]] + value[1..]
  {
    hide EscapeChar;
  }

  lemma {:induction false} WordLengthAt(word: string, rest: string)
    requires forall i :: 0 <= i < |word| ==> IsWordChar(word[i])
    requires rest == [] || !IsWordChar(rest[0])
    ensures WordLength(word + rest) == |word|
  {
    if word != [] {
      assert (word + rest)[1..] == word[1..] + rest;
      WordLengthAt(word[1..], rest);
    } else {
      assert word + rest == rest;
    }
  }

  /** What must hold of the text after a piece for the piece to be read alone. */
  predicate Follows(p: Piece, rest: string) {
    rest == [] ||
    match p
    case Word(_) => !IsWordChar(rest[0])
    case Ident(_) => rest[0] != '"'
    case Literal(_) => rest[0] != '\''
    case Sym(text) => IsBracket(text) || (rest[0] != '=' && rest[0] != '>' && rest[0] != ':')
    case _ => true
  }

  lemma LexWord(text: string, rest: string)
    requires IsWordText(text) && (rest == [] || !IsWordChar(rest[0]))
    ensures Lex(text + rest) == Cons(WordTok(text), Lex(rest))
  {
    var s := text + rest;
    assert s[1..] == text[1..] + rest;
    WordLengthAt(text[1..], rest);
    assert s[..|text|] == text && s[|text|..] == rest;
    assert s[0] == text[0];
  }

  lemma LexIdent(name: string, rest: string)
    requires Follows(Ident(name), rest)
    ensures Lex(QuoteIdentifier(name) + rest) == Cons(TIdent(name), Lex(rest))
  {
    var s := QuoteIdentifier(name) + rest;
    QuotedIdentifierReadsBack(name, rest);
    assert s[1..] == DoubleQuotes(name) + "\"" + rest;
    assert s[1 + (|DoubleQuotes(name)| + 1)..] == rest;
  }

  lemma LexQuoted(body: string, value: string, rest: string)
    requires ReadLiteral(body + rest) == Some(Body(value, |body|))
    ensures Lex("'" + (body + rest)) == Cons(TLit(value), Lex(rest))
  {
    hide ReadLiteral;
    var s := "'" + (body + rest);
    AppendSplits("'", body + rest);
    AppendSplits(body, rest);
    assert s[0] == '\'' && s[1..] == body + rest && s[1 + |body|..] == rest;
  }

  lemma LexLiteral(value: string, rest: string)
    requires Follows(Literal(value), rest)
    ensures Lex("'" + EscapeLiteral(value) + "'" + rest) == Cons(TLit(value), Lex(rest))
  {
    assert rest == [] || rest[0] != '\'';
    hide *;
    var escaped := EscapeLiteral(value);
    EscapedLiteralReadsBack(value, rest);
    LexQuoted(escaped + "'", value, rest);
    AppendAssociates("'", escaped, "'");
    AppendAssociates("'", escaped + "'", rest);
  }

  lemma LexPiece(p: Piece, rest: string)
    requires PieceOk(p) && Follows(p, rest)
    ensures Lex(Render(p) + rest) == match Lex(rest) case None => None case Some(ts) => Some(TokOf(p) + ts)
  {
    match p {
      case Word(k) =>
        KeywordIsWord(k);
        KeywordReadsBack(k);
        LexWord(KeywordText(k), rest);
      case Ident(name) => LexIdent(name, rest);
      case Literal(value) => LexLiteral(value, rest);
      case Param(_) => assert ("?" + rest)[1..] == rest;
      case Sym(text) => LexSymbol(text, rest);
      case Space =>
        assert (" " + rest)[1..] == rest;
        assert Lex(rest).Some? ==> [] + Lex(rest).value == Lex(rest).value;
    }
  }

  lemma SymbolHead(text: string)
    requires IsOperator(text) || IsBracket(text)
    ensures 1 <= |text| <= 2 && (|text| == 2 ==> IsOperator(text))
    ensures text[0] != ' ' && text[0] != '?' && text[0] != '"' && text[0] != '\'' && !IsWordChar(text[0])
  {
  }

  /** A one-character symbol and what follows it are no operator together. */
  lemma NoLongerSymbol(text: string, next: char)
    requires |text| == 1 && (IsOperator(text) || IsBracket(text))
    requires IsBracket(text) || (next != '=' && next != '>' && next != ':')
    ensures !IsOperator([text[0], next])
  {
    assert [text[0], next][0] == text[0] && [text[0], next][1] == next;
  }

  lemma LexSymbol(text: string, rest: string)
    requires IsOperator(text) || IsBracket(text)
    requires Follows(Sym(text), rest)
    ensures Lex(text + rest) == Cons(TSym(text), Lex(rest))
  {
    var s := text + rest;
    AppendSplits(text, rest);
    SymbolHead(text);
    hide IsOperator, IsBracket, IsWordChar;
    if |text| == 1 && rest != [] {
      assert s[..2] == [text[0], rest[0]];
      NoLongerSymbol(text, rest[0]);
    }
  }

  lemma FitsFollows(p: Piece, q: Piece, rest: string)
    requires PieceOk(p) && PieceOk(q) && Fits(p, q)
    ensures Follows(p, Render(q) + rest)
  {
    hide DoubleQuotes, EscapeLiteral;
    if q.Word? {
      KeywordIsWord(q.keyword);
    }
  }

  /** The text of any chain of pieces is read back as exactly its tokens. */
  lemma {:induction false} LexRendered(ps: seq<Piece>)
    requires Chained(ps)
    ensures Lex(RenderAll(ps)) == Some(Toks(ps))
  {
    if ps != [] {
      LexRendered(ps[1..]);
      var rest := RenderAll(ps[1..]);
      if |ps| > 1 {
        FitsFollows(ps[0], ps[1], RenderAll(ps[1..][1..]));
      }
      LexPiece(ps[0], rest);
    }
  }
}
