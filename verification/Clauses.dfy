// The shape of a compiled condition, its printed pieces, and the proof that the
// parser reads the printed text back as that shape.
//
// A clause is a non-empty AND list with no parentheses of its own: this is what
// one call of the predicate compiler prints.
module Clauses {
  import opened Prelude
  import opened SqlText
  import opened SqlMeaning

  datatype Factor =
    | Leaf(test: Test)
    | All(clause: Clause)
    | Any(alternatives: Alternatives)
    | Negated(clause: Clause)

  datatype Clause = One(factor: Factor) | Conj(factor: Factor, rest: Clause)

  datatype Alternatives = Last(clause: Clause) | More(clause: Clause, rest: Alternatives)

  function Append(c: Clause, d: Clause): Clause {
    match c
    case One(f) => Conj(f, d)
    case Conj(f, rest) => Conj(f, Append(rest, d))
  }

  // ----- printing -----

  function Spaced(word: Keyword): seq<Piece> {
    [Space, Word(word), Space]
  }

  function Bracketed(ps: seq<Piece>): seq<Piece> {
    [Sym("(")] + ps + [Sym(")")]
  }

  function OpText(op: Comparison): string {
    match op
    case Eq => "="
    case Ne => "!="
    case Lt => "<"
    case Le => "<="
    case Gt => ">"
    case Ge => ">="
  }

  function ListPieces(bs: seq<TypedBinding>): seq<Piece> {
    if bs == [] then []
    else if |bs| == 1 then [Param(bs[0])]
    else [Param(bs[0]), Sym(","), Space] + ListPieces(bs[1..])
  }

  function TestPieces(t: Test): seq<Piece> {
    match t
    case Compare(column, op, b) => [Ident(column), Space, Sym(OpText(op)), Space, Param(b)]
    case Between(column, low, high) =>
      [Ident(column)] + Spaced(BETWEEN) + [Param(low)] + Spaced(AND) + [Param(high)]
    case InList(column, bs) => [Ident(column)] + Spaced(IN) + Bracketed(ListPieces(bs))
    case IsNull(column, negated) =>
      [Ident(column)] + Spaced(IS) + (if negated then [Word(NOT), Space] else []) + [Word(NULL)]
    case Contains(column, b) =>
      [Word(POSITION)] + Bracketed([Param(b)] + Spaced(IN) + [Ident(column)]) + [Space, Sym(">"), Space, Word(ZERO)]
  }

  function FactorPieces(f: Factor): seq<Piece> {
    match f
    case Leaf(t) => TestPieces(t)
    case All(c) => Bracketed(ClausePieces(c))
    case Any(cs) => Bracketed(AlternativePieces(cs))
    case Negated(c) => [Word(NOT), Space] + Bracketed(ClausePieces(c))
  }

  function ClausePieces(c: Clause): seq<Piece> {
    match c
    case One(f) => FactorPieces(f)
    case Conj(f, rest) => FactorPieces(f) + Spaced(AND) + ClausePieces(rest)
  }

  function AlternativePieces(cs: Alternatives): seq<Piece> {
    match cs
    case Last(c) => ClausePieces(c)
    case More(c, rest) => ClausePieces(c) + Spaced(OR) + AlternativePieces(rest)
  }

  /** No printed IN list is empty. */
  predicate TestOk(t: Test) {
    t.InList? ==> t.operands != []
  }

  predicate FactorOk(f: Factor) {
    match f
    case Leaf(t) => TestOk(t)
    case All(c) => ClauseOk(c)
    case Any(cs) => AlternativesOk(cs)
    case Negated(c) => ClauseOk(c)
  }

  predicate ClauseOk(c: Clause) {
    match c
    case One(f) => FactorOk(f)
    case Conj(f, rest) => FactorOk(f) && ClauseOk(rest)
  }

  predicate AlternativesOk(cs: Alternatives) {
    match cs
    case Last(c) => ClauseOk(c)
    case More(c, rest) => ClauseOk(c) && AlternativesOk(rest)
  }

  // ----- the condition a shape stands for -----

  function FactorCond(f: Factor): Cond {
    match f
    case Leaf(t) => Atom(t)
    case All(c) => ClauseCond(c)
    case Any(cs) => AlternativesCond(cs)
    case Negated(c) => Not(ClauseCond(c))
  }

  function ClauseCond(c: Clause): Cond {
    match c
    case One(f) => FactorCond(f)
    case Conj(f, rest) => And(FactorCond(f), ClauseCond(rest))
  }

  function AlternativesCond(cs: Alternatives): Cond {
    match cs
    case Last(c) => ClauseCond(c)
    case More(c, rest) => Or(ClauseCond(c), AlternativesCond(rest))
  }

  lemma {:induction false} EvalAppend(c: Clause, d: Clause, row: Row, server: Server)
    ensures Eval(ClauseCond(Append(c, d)), row, server)
         == And3(Eval(ClauseCond(c), row, server), Eval(ClauseCond(d), row, server))
  {
    if c.Conj? {
      EvalAppend(c.rest, d, row, server);
    }
  }

  // ----- printed shapes are chains of pieces -----

  /** A chain that may be followed by a bracket or a space. */
  predicate Closed(ps: seq<Piece>) {
    && ps != []
    && Chained(ps)
    && (ps[|ps| - 1].Sym? ==> IsBracket(ps[|ps| - 1].text))
  }

  lemma ClosedKeyword(a: seq<Piece>, word: Keyword, b: seq<Piece>)
    requires Closed(a) && Closed(b)
    ensures Closed(a + Spaced(word) + b)
  {
    ChainedConcat(a, Spaced(word));
    ChainedConcat(a + Spaced(word), b);
  }

  lemma ClosedBracketed(a: seq<Piece>)
    requires a == [] || Closed(a)
    ensures Closed(Bracketed(a))
  {
    ChainedConcat([Sym("(")], a);
    ChainedConcat([Sym("(")] + a, [Sym(")")]);
  }

  lemma {:induction false} ClosedList(bs: seq<TypedBinding>)
    ensures bs != [] ==> Closed(ListPieces(bs))
  {
    if |bs| > 1 {
      ClosedList(bs[1..]);
      ChainedConcat([Param(bs[0]), Sym(","), Space], ListPieces(bs[1..]));
    }
  }

  lemma ClosedBetween(column: string, low: TypedBinding, high: TypedBinding)
    ensures Closed(TestPieces(Between(column, low, high)))
  {
    ClosedKeyword([Ident(column)], BETWEEN, [Param(low)]);
    ClosedKeyword([Ident(column)] + Spaced(BETWEEN) + [Param(low)], AND, [Param(high)]);
  }

  lemma ClosedIn(column: string, bs: seq<TypedBinding>)
    ensures Closed(TestPieces(InList(column, bs)))
  {
    ClosedList(bs);
    ClosedBracketed(ListPieces(bs));
    ClosedKeyword([Ident(column)], IN, Bracketed(ListPieces(bs)));
  }

  lemma ClosedIsNull(column: string, negated: bool)
    ensures Closed(TestPieces(IsNull(column, negated)))
  {
    var tail := (if negated then [Word(NOT), Space] else []) + [Word(NULL)];
    ClosedKeyword([Ident(column)], IS, tail);
    assert [Ident(column)] + Spaced(IS) + tail == TestPieces(IsNull(column, negated));
  }

  lemma ClosedContains(column: string, b: TypedBinding)
    ensures Closed(TestPieces(Contains(column, b)))
  {
    var inner := [Param(b)] + Spaced(IN) + [Ident(column)];
    ClosedKeyword([Param(b)], IN, [Ident(column)]);
    ClosedBracketed(inner);
    ChainedConcat([Word(POSITION)], Bracketed(inner));
    ChainedConcat([Word(POSITION)] + Bracketed(inner), [Space, Sym(">"), Space, Word(ZERO)]);
  }

  lemma ClosedTest(t: Test)
    ensures Closed(TestPieces(t))
  {
    match t {
      case Compare(column, op, b) => assert IsOperator(OpText(op));
      case Between(column, low, high) => ClosedBetween(column, low, high);
      case InList(column, bs) => ClosedIn(column, bs);
      case IsNull(column, negated) => ClosedIsNull(column, negated);
      case Contains(column, b) => ClosedContains(column, b);
    }
  }

  lemma {:induction false} ClosedFactor(f: Factor)
    ensures Closed(FactorPieces(f))
    decreases f
  {
    match f {
      case Leaf(t) => ClosedTest(t);
      case All(c) =>
        ClosedClause(c);
        ClosedBracketed(ClausePieces(c));
      case Any(cs) =>
        ClosedAlternatives(cs);
        ClosedBracketed(AlternativePieces(cs));
      case Negated(c) =>
        ClosedClause(c);
        ClosedBracketed(ClausePieces(c));
        ChainedConcat([Word(NOT), Space], Bracketed(ClausePieces(c)));
    }
  }

  lemma {:induction false} ClosedClause(c: Clause)
    ensures Closed(ClausePieces(c))
    decreases c
  {
    ClosedFactor(c.factor);
    if c.Conj? {
      ClosedClause(c.rest);
      ClosedKeyword(FactorPieces(c.factor), AND, ClausePieces(c.rest));
    }
  }

  lemma {:induction false} ClosedAlternatives(cs: Alternatives)
    ensures Closed(AlternativePieces(cs))
    decreases cs
  {
    ClosedClause(cs.clause);
    if cs.More? {
      ClosedAlternatives(cs.rest);
      ClosedKeyword(ClausePieces(cs.clause), OR, AlternativePieces(cs.rest));
    }
  }

  // ----- the parser reads printed shapes back -----

  // ----- short runs of pieces -----

  lemma OnePiece(p: Piece)
    ensures Toks([p]) == TokOf(p)
    ensures Params([p]) == if p.Param? then [p.binding] else []
    ensures RenderAll([p]) == Render(p)
  {
    assert [p][1..] == [];
  }

  lemma TwoPieces(p: Piece, q: Piece)
    ensures Toks([p, q]) == TokOf(p) + TokOf(q)
    ensures Params([p, q]) == Params([p]) + Params([q])
    ensures RenderAll([p, q]) == Render(p) + Render(q)
  {
    assert [p, q] == [p] + [q];
    ToksConcat([p], [q]);
    ParamsConcat([p], [q]);
    RenderConcat([p], [q]);
    OnePiece(p);
    OnePiece(q);
  }

  lemma ThreePieces(p: Piece, q: Piece, r: Piece)
    ensures Toks([p, q, r]) == TokOf(p) + TokOf(q) + TokOf(r)
    ensures Params([p, q, r]) == Params([p]) + Params([q]) + Params([r])
    ensures RenderAll([p, q, r]) == Render(p) + Render(q) + Render(r)
  {
    assert [p, q, r] == [p, q] + [r];
    ToksConcat([p, q], [r]);
    ParamsConcat([p, q], [r]);
    RenderConcat([p, q], [r]);
    TwoPieces(p, q);
    OnePiece(r);
  }

  lemma PiecesOfKeyword(word: Keyword)
    ensures Toks(Spaced(word)) == [TWord(word)]
    ensures Params(Spaced(word)) == []
    ensures RenderAll(Spaced(word)) == " " + KeywordText(word) + " "
  {
    ThreePieces(Space, Word(word), Space);
    OnePiece(Space);
    OnePiece(Word(word));
  }

  lemma PiecesOfBracketed(ps: seq<Piece>)
    ensures Toks(Bracketed(ps)) == [TSym("(")] + Toks(ps) + [TSym(")")]
    ensures Params(Bracketed(ps)) == Params(ps)
  {
    hide Toks, Params, RenderAll;
    ToksConcat([Sym("(")], ps);
    ToksConcat([Sym("(")] + ps, [Sym(")")]);
    ParamsConcat([Sym("(")], ps);
    ParamsConcat([Sym("(")] + ps, [Sym(")")]);
    OnePiece(Sym("("));
    OnePiece(Sym(")"));
  }

  /** Pieces around a keyword. */
  lemma PiecesAround(a: seq<Piece>, word: Keyword, b: seq<Piece>)
    ensures Toks(a + Spaced(word) + b) == Toks(a) + [TWord(word)] + Toks(b)
    ensures Params(a + Spaced(word) + b) == Params(a) + Params(b)
  {
    hide Toks, Params, RenderAll;
    ToksConcat(a, Spaced(word));
    ToksConcat(a + Spaced(word), b);
    ParamsConcat(a, Spaced(word));
    ParamsConcat(a + Spaced(word), b);
    PiecesOfKeyword(word);
    assert Params(a) + [] == Params(a);
  }

  function ListToks(n: nat): seq<Tok> {
    if n == 0 then [] else if n == 1 then [TParam] else [TParam, TSym(",")] + ListToks(n - 1)
  }

  function TestToks(t: Test): seq<Tok> {
    match t
    case Compare(column, op, _) => [TIdent(column), TSym(OpText(op)), TParam]
    case Between(column, _, _) => [TIdent(column), TWord(BETWEEN), TParam, TWord(AND), TParam]
    case InList(column, bs) => [TIdent(column), TWord(IN), TSym("(")] + ListToks(|bs|) + [TSym(")")]
    case IsNull(column, negated) =>
      [TIdent(column), TWord(IS)] + (if negated then [TWord(NOT)] else []) + [TWord(NULL)]
    case Contains(column, _) =>
      [TWord(POSITION), TSym("("), TParam, TWord(IN), TIdent(column), TSym(")"), TSym(">"), TWord(ZERO)]
  }

  function TestParams(t: Test): seq<TypedBinding> {
    match t
    case Compare(_, _, b) => [b]
    case Between(_, low, high) => [low, high]
    case InList(_, bs) => bs
    case IsNull(_, _) => []
    case Contains(_, b) => [b]
  }

  lemma PiecesOfComma(b: TypedBinding)
    ensures Toks([Param(b), Sym(","), Space]) == [TParam, TSym(",")]
    ensures Params([Param(b), Sym(","), Space]) == [b]
    ensures RenderAll([Param(b), Sym(","), Space]) == "?, "
  {
    ThreePieces(Param(b), Sym(","), Space);
    OnePiece(Param(b));
    OnePiece(Sym(","));
    OnePiece(Space);
  }

  lemma {:induction false} PiecesOfList(bs: seq<TypedBinding>)
    ensures Toks(ListPieces(bs)) == ListToks(|bs|)
    ensures Params(ListPieces(bs)) == bs
  {
    if |bs| == 1 {
      OnePiece(Param(bs[0]));
    } else if |bs| > 1 {
      hide Toks, Params;
      var head, more := [Param(bs[0]), Sym(","), Space], ListPieces(bs[1..]);
      PiecesOfList(bs[1..]);
      PiecesOfComma(bs[0]);
      ToksConcat(head, more);
      ParamsConcat(head, more);
      assert ListPieces(bs) == head + more;
      assert [bs[0]] + bs[1..] == bs;
    }
  }

  lemma PiecesOfCompare(column: string, op: Comparison, b: TypedBinding)
    ensures var ps := TestPieces(Compare(column, op, b));
            Toks(ps) == [TIdent(column), TSym(OpText(op)), TParam] && Params(ps) == [b]
  {
    hide Toks, Params, RenderAll;
    var x, y, z, ps := [Ident(column)], [Space, Sym(OpText(op)), Space], [Param(b)], TestPieces(Compare(column, op, b));
    assert ps == x + y + z;
    ToksConcat(x, y);
    ToksConcat(x + y, z);
    ParamsConcat(x, y);
    ParamsConcat(x + y, z);
    ThreePieces(Space, Sym(OpText(op)), Space);
    OnePiece(Space);
    OnePiece(Sym(OpText(op)));
    OnePiece(Ident(column));
    OnePiece(Param(b));
  }

  lemma Gather<T>(a: T, b: T, c: T, d: T, e: T, f: T, g: T, h: T)
    ensures [a] + ([b] + ([c] + [d] + [e]) + [f]) + ([g] + [h]) == [a, b, c, d, e, f, g, h]
  {
  }

  /** The pieces of the tail ` > 0`. */
  lemma PiecesOfTail()
    ensures Toks([Space, Sym(">")] + [Space, Word(ZERO)]) == [TSym(">")] + [TWord(ZERO)]
    ensures Params([Space, Sym(">")] + [Space, Word(ZERO)]) == []
  {
    hide Toks, Params, RenderAll;
    ToksConcat([Space, Sym(">")], [Space, Word(ZERO)]);
    ParamsConcat([Space, Sym(">")], [Space, Word(ZERO)]);
    TwoPieces(Space, Sym(">"));
    TwoPieces(Space, Word(ZERO));
    OnePiece(Space);
    OnePiece(Sym(">"));
    OnePiece(Word(ZERO));
  }

  lemma PiecesOfCall(column: string, b: TypedBinding, inner: seq<Piece>)
    requires inner == [Param(b)] + Spaced(IN) + [Ident(column)]
    ensures Toks([Word(POSITION)] + Bracketed(inner))
         == [TWord(POSITION)] + ([TSym("(")] + ([TParam] + [TWord(IN)] + [TIdent(column)]) + [TSym(")")])
    ensures Params([Word(POSITION)] + Bracketed(inner)) == [b]
  {
    hide Toks, Params, RenderAll, Bracketed, Spaced;
    PiecesAround([Param(b)], IN, [Ident(column)]);
    PiecesOfBracketed(inner);
    OnePiece(Param(b));
    OnePiece(Ident(column));
    OnePiece(Word(POSITION));
    ToksConcat([Word(POSITION)], Bracketed(inner));
    ParamsConcat([Word(POSITION)], Bracketed(inner));
    assert [] + [b] == [b] && [b] + [] == [b];
  }

  lemma PiecesOfContains(column: string, b: TypedBinding)
    ensures var t := Contains(column, b);
            Toks(TestPieces(t)) == TestToks(t) && Params(TestPieces(t)) == [b]
  {
    var inner, tail := [Param(b)] + Spaced(IN) + [Ident(column)], [Space, Sym(">")] + [Space, Word(ZERO)];
    assert TestPieces(Contains(column, b)) == [Word(POSITION)] + Bracketed(inner) + tail;
    assert TestToks(Contains(column, b))
      == [TWord(POSITION), TSym("("), TParam, TWord(IN), TIdent(column), TSym(")"), TSym(">"), TWord(ZERO)];
    hide *;
    PiecesOfCall(column, b, inner);
    PiecesOfTail();
    ToksConcat([Word(POSITION)] + Bracketed(inner), tail);
    ParamsConcat([Word(POSITION)] + Bracketed(inner), tail);
    Gather(TWord(POSITION), TSym("("), TParam, TWord(IN), TIdent(column), TSym(")"), TSym(">"), TWord(ZERO));
    assert [b] + [] == [b];
  }

  lemma PiecesOfBetween(column: string, low: TypedBinding, high: TypedBinding)
    ensures var t := Between(column, low, high);
            Toks(TestPieces(t)) == TestToks(t) && Params(TestPieces(t)) == [low, high]
  {
    hide Toks, Params, RenderAll;
    OnePiece(Ident(column));
    OnePiece(Param(low));
    OnePiece(Param(high));
    PiecesAround([Ident(column)], BETWEEN, [Param(low)]);
    PiecesAround([Ident(column)] + Spaced(BETWEEN) + [Param(low)], AND, [Param(high)]);
  }

  lemma InPieces(column: string, bs: seq<TypedBinding>)
    ensures TestPieces(InList(column, bs)) == [Ident(column)] + Spaced(IN) + Bracketed(ListPieces(bs))
    ensures TestToks(InList(column, bs)) == [TIdent(column), TWord(IN), TSym("(")] + ListToks(|bs|) + [TSym(")")]
    ensures TokOf(Ident(column)) == [TIdent(column)]
  {
    hide ListPieces, ListToks, Bracketed;
  }

  lemma GatherIn<T>(a: T, b: T, c: T, middle: seq<T>, d: T)
    ensures [a] + [b] + ([c] + middle + [d]) == [a, b, c] + middle + [d]
  {
  }

  lemma PiecesOfIn(column: string, bs: seq<TypedBinding>)
    ensures var t := InList(column, bs);
            Toks(TestPieces(t)) == TestToks(t) && Params(TestPieces(t)) == bs
  {
    hide *;
    InPieces(column, bs);
    OnePiece(Ident(column));
    PiecesOfList(bs);
    PiecesOfBracketed(ListPieces(bs));
    PiecesAround([Ident(column)], IN, Bracketed(ListPieces(bs)));
    GatherIn(TIdent(column), TWord(IN), TSym("("), ListToks(|bs|), TSym(")"));
    assert [] + bs == bs;
  }

  lemma PiecesOfIsNull(column: string, negated: bool)
    ensures var t := IsNull(column, negated);
            Toks(TestPieces(t)) == TestToks(t) && Params(TestPieces(t)) == []
  {
    hide Toks, Params;
    OnePiece(Ident(column));
    OnePiece(Word(NULL));
    if negated {
      var not := [Word(NOT), Space];
      assert TestPieces(IsNull(column, true)) == [Ident(column)] + Spaced(IS) + (not + [Word(NULL)]);
      TwoPieces(Word(NOT), Space);
      OnePiece(Word(NOT));
      OnePiece(Space);
      ToksConcat(not, [Word(NULL)]);
      ParamsConcat(not, [Word(NULL)]);
      PiecesAround([Ident(column)], IS, not + [Word(NULL)]);
    } else {
      assert TestPieces(IsNull(column, false)) == [Ident(column)] + Spaced(IS) + [Word(NULL)];
      PiecesAround([Ident(column)], IS, [Word(NULL)]);
    }
  }

  lemma PiecesOfTest(t: Test)
    ensures Toks(TestPieces(t)) == TestToks(t)
    ensures Params(TestPieces(t)) == TestParams(t)
  {
    hide Toks, Params;
    match t {
      case Compare(column, op, b) => PiecesOfCompare(column, op, b);
      case Between(column, low, high) => PiecesOfBetween(column, low, high);
      case InList(column, bs) => PiecesOfIn(column, bs);
      case IsNull(column, negated) => PiecesOfIsNull(column, negated);
      case Contains(column, b) => PiecesOfContains(column, b);
    }
  }

  lemma {:induction false} ReadParams(bs: seq<TypedBinding>, ts: seq<Tok>, rest: seq<Tok>, left: seq<TypedBinding>)
    requires bs != [] && ts == ListToks(|bs|) + [TSym(")")] + rest
    ensures ParseParams(ts, bs + left) == Done(bs, rest, left)
    decreases |bs|
  {
    assert (bs + left)[1..] == bs[1..] + left;
    assert bs == [bs[0]] + bs[1..];
    if |bs| == 1 {
      assert ts == [TParam, TSym(")")] + rest;
      assert ts[2..] == rest;
      assert [bs[0]] == bs && (bs + left)[0] == bs[0];
    } else {
      assert ts == [TParam, TSym(",")] + (ListToks(|bs| - 1) + [TSym(")")] + rest);
      ReadParams(bs[1..], ts[2..], rest, left);
    }
  }

  lemma OpReadsBack(op: Comparison)
    ensures ComparisonOf(OpText(op)) == Some(op)
  {
  }

  lemma ReadIsNull(column: string, negated: bool, ts: seq<Tok>, rest: seq<Tok>, left: seq<TypedBinding>)
    requires ts == TestToks(IsNull(column, negated)) + rest
    ensures ParseTest(ts, left) == Done(Atom(IsNull(column, negated)), rest, left)
  {
    if negated {
      assert ts == [TIdent(column), TWord(IS), TWord(NOT), TWord(NULL)] + rest;
      assert ts[4..] == rest;
    } else {
      assert ts == [TIdent(column), TWord(IS), TWord(NULL)] + rest;
      assert ts[3..] == rest;
    }
  }

  lemma ReadCompare(column: string, op: Comparison, b: TypedBinding, ts: seq<Tok>, rest: seq<Tok>, left: seq<TypedBinding>)
    requires ts == TestToks(Compare(column, op, b)) + rest
    ensures ParseNot(ts, [b] + left) == Done(Atom(Compare(column, op, b)), rest, left)
  {
    hide ParseOr, ComparisonOf, ParseParams, OpText;
    OpReadsBack(op);
    AppendSplits(TestToks(Compare(column, op, b)), rest);
    AppendSplits([b], left);
    assert ts[3..] == rest;
  }

  lemma BetweenToks(column: string, low: TypedBinding, high: TypedBinding, ts: seq<Tok>, rest: seq<Tok>)
    requires ts == TestToks(Between(column, low, high)) + rest
    ensures |ts| >= 5 && ts[..5] == TestToks(Between(column, low, high)) && ts[5..] == rest
  {
    AppendSplits(TestToks(Between(column, low, high)), rest);
    assert |TestToks(Between(column, low, high))| == 5;
  }

  lemma ReadBetween(column: string, low: TypedBinding, high: TypedBinding, ts: seq<Tok>, rest: seq<Tok>, left: seq<TypedBinding>)
    requires ts == TestToks(Between(column, low, high)) + rest
    ensures ParseNot(ts, [low, high] + left) == Done(Atom(Between(column, low, high)), rest, left)
  {
    hide ParseOr, ComparisonOf, ParseParams;
    BetweenToks(column, low, high, ts, rest);
    var params := [low, high] + left;
    AppendSplits([low, high], left);
    assert params[0] == low && params[1] == high && params[2..] == left;
    assert ts[0] == ts[..5][0] && ts[1] == ts[..5][1] && ts[2] == ts[..5][2] && ts[3] == ts[..5][3] && ts[4] == ts[..5][4];
  }

  lemma ReadContains(column: string, b: TypedBinding, ts: seq<Tok>, rest: seq<Tok>, left: seq<TypedBinding>)
    requires ts == TestToks(Contains(column, b)) + rest
    ensures ParseNot(ts, [b] + left) == Done(Atom(Contains(column, b)), rest, left)
  {
    hide ParseOr, ComparisonOf, ParseParams;
    AppendSplits(TestToks(Contains(column, b)), rest);
    AppendSplits([b], left);
    assert ts[8..] == rest;
  }

  lemma ReadTest(t: Test, ts: seq<Tok>, rest: seq<Tok>, left: seq<TypedBinding>)
    requires TestOk(t) && ts == TestToks(t) + rest
    ensures ParseNot(ts, TestParams(t) + left) == Done(Atom(t), rest, left)
  {
    hide ParseOr, ComparisonOf, ParseParams;
    match t {
      case Compare(column, op, b) => ReadCompare(column, op, b, ts, rest, left);
      case Between(column, low, high) => ReadBetween(column, low, high, ts, rest, left);
      case InList(column, bs) =>
        ReadParams(bs, ts[3..], rest, left);
      case IsNull(column, negated) =>
        ReadIsNull(column, negated, ts, rest, left);
        assert [] + left == left;
      case Contains(column, b) => ReadContains(column, b, ts, rest, left);
    }
  }

  /** The token that may not follow when the parser is to stop where a printed
      shape ends. */
  predicate StopsAnd(rest: seq<Tok>) {
    rest != [] ==> rest[0] != TWord(AND)
  }

  predicate StopsOr(rest: seq<Tok>) {
    StopsAnd(rest) && (rest != [] ==> rest[0] != TWord(OR))
  }

  // One lemma for each way a parser level can finish.

  lemma StepParen(ts: seq<Tok>, bs: seq<TypedBinding>, c: Cond, rest: seq<Tok>, left: seq<TypedBinding>)
    requires ts != [] && ts[0] == TSym("(")
    requires ParseOr(ts[1..], bs) == Done(c, [TSym(")")] + rest, left)
    ensures ParseNot(ts, bs) == Done(c, rest, left)
  {
    hide ParseOr, ParseTest;
    assert ([TSym(")")] + rest)[1..] == rest;
  }

  lemma StepNot(ts: seq<Tok>, bs: seq<TypedBinding>, c: Cond, rest: seq<Tok>, left: seq<TypedBinding>)
    requires ts != [] && ts[0] == TWord(NOT)
    requires ParseNot(ts[1..], bs) == Done(c, rest, left)
    ensures ParseNot(ts, bs) == Done(Not(c), rest, left)
  {
    hide ParseOr, ParseTest;
  }

  lemma StepAndLast(ts: seq<Tok>, bs: seq<TypedBinding>, c: Cond, rest: seq<Tok>, left: seq<TypedBinding>)
    requires ParseNot(ts, bs) == Done(c, rest, left) && StopsAnd(rest)
    ensures ParseAnd(ts, bs) == Done(c, rest, left)
  {
    hide ParseNot;
  }

  lemma StepAndMore(ts: seq<Tok>, bs: seq<TypedBinding>, a: Cond, next: seq<Tok>, mid: seq<TypedBinding>,
                    b: Cond, rest: seq<Tok>, left: seq<TypedBinding>)
    requires ParseNot(ts, bs) == Done(a, [TWord(AND)] + next, mid)
    requires ParseAnd(next, mid) == Done(b, rest, left)
    ensures ParseAnd(ts, bs) == Done(And(a, b), rest, left)
  {
    hide ParseNot;
    assert ([TWord(AND)] + next)[1..] == next;
  }

  lemma StepOrLast(ts: seq<Tok>, bs: seq<TypedBinding>, c: Cond, rest: seq<Tok>, left: seq<TypedBinding>)
    requires ParseAnd(ts, bs) == Done(c, rest, left) && StopsOr(rest)
    ensures ParseOr(ts, bs) == Done(c, rest, left)
  {
    hide ParseAnd;
  }

  lemma StepOrMore(ts: seq<Tok>, bs: seq<TypedBinding>, a: Cond, next: seq<Tok>, mid: seq<TypedBinding>,
                   b: Cond, rest: seq<Tok>, left: seq<TypedBinding>)
    requires ParseAnd(ts, bs) == Done(a, [TWord(OR)] + next, mid)
    requires ParseOr(next, mid) == Done(b, rest, left)
    ensures ParseOr(ts, bs) == Done(Or(a, b), rest, left)
  {
    hide ParseAnd;
    assert ([TWord(OR)] + next)[1..] == next;
  }

  lemma {:induction false} ReadFactor(f: Factor, ts: seq<Tok>, rest: seq<Tok>, left: seq<TypedBinding>)
    requires FactorOk(f) && ts == Toks(FactorPieces(f)) + rest
    ensures ParseNot(ts, Params(FactorPieces(f)) + left) == Done(FactorCond(f), rest, left)
    decreases f, 0
  {
    hide ParseNot, ParseOr, ParseTest, Toks, Params;
    match f {
      case Leaf(t) =>
        PiecesOfTest(t);
        ReadTest(t, ts, rest, left);
      case All(c) =>
        ReadParenthesised(c, ts, rest, left);
      case Any(cs) =>
        PiecesOfBracketed(AlternativePieces(cs));
        assert ts[1..] == Toks(AlternativePieces(cs)) + ([TSym(")")] + rest);
        ReadAlternatives(cs, ts[1..], [TSym(")")] + rest, left);
        StepParen(ts, Params(FactorPieces(f)) + left, AlternativesCond(cs), rest, left);
      case Negated(c) =>
        PiecesOfNot(c);
        var inner := Bracketed(ClausePieces(c));
        assert ts == [TWord(NOT)] + (Toks(inner) + rest);
        AppendSplits([TWord(NOT)], Toks(inner) + rest);
        ReadParenthesised(c, Toks(inner) + rest, rest, left);
        StepNot(ts, Params(inner) + left, ClauseCond(c), rest, left);
    }
  }

  lemma PiecesOfNot(c: Clause)
    ensures Toks(FactorPieces(Negated(c))) == [TWord(NOT)] + Toks(Bracketed(ClausePieces(c)))
    ensures Params(FactorPieces(Negated(c))) == Params(Bracketed(ClausePieces(c)))
  {
    hide Toks, Params, RenderAll, Bracketed;
    var not, inner := [Word(NOT), Space], Bracketed(ClausePieces(c));
    TwoPieces(Word(NOT), Space);
    OnePiece(Word(NOT));
    OnePiece(Space);
    ToksConcat(not, inner);
    ParamsConcat(not, inner);
    assert Params(not) + Params(inner) == Params(inner);
  }

  lemma {:induction false} ReadParenthesised(c: Clause, ts: seq<Tok>, rest: seq<Tok>, left: seq<TypedBinding>)
    requires ClauseOk(c) && ts == Toks(Bracketed(ClausePieces(c))) + rest
    ensures ParseNot(ts, Params(Bracketed(ClausePieces(c))) + left) == Done(ClauseCond(c), rest, left)
    decreases c, 3
  {
    hide ParseNot, ParseOr, ParseTest, Toks, Params;
    PiecesOfBracketed(ClausePieces(c));
    assert ts[1..] == Toks(ClausePieces(c)) + ([TSym(")")] + rest);
    ReadClause(c, ts[1..], [TSym(")")] + rest, left);
    StepParen(ts, Params(ClausePieces(c)) + left, ClauseCond(c), rest, left);
  }

  /** An AND list is read by the AND level, and by the OR level when no OR follows. */
  lemma {:induction false} ReadClause(c: Clause, ts: seq<Tok>, rest: seq<Tok>, left: seq<TypedBinding>)
    requires ClauseOk(c) && ts == Toks(ClausePieces(c)) + rest && StopsAnd(rest)
    ensures ParseAnd(ts, Params(ClausePieces(c)) + left) == Done(ClauseCond(c), rest, left)
    ensures StopsOr(rest) ==> ParseOr(ts, Params(ClausePieces(c)) + left) == Done(ClauseCond(c), rest, left)
    decreases c, 2
  {
    hide ParseNot, ParseAnd, ParseOr, Toks, Params;
    var bs := Params(ClausePieces(c)) + left;
    match c {
      case One(f) =>
        ReadFactor(f, ts, rest, left);
        StepAndLast(ts, bs, ClauseCond(c), rest, left);
      case Conj(f, more) =>
        PiecesAround(FactorPieces(f), AND, ClausePieces(more));
        var next, mid := Toks(ClausePieces(more)) + rest, Params(ClausePieces(more)) + left;
        assert ts == Toks(FactorPieces(f)) + ([TWord(AND)] + next);
        assert bs == Params(FactorPieces(f)) + mid;
        ReadFactor(f, ts, [TWord(AND)] + next, mid);
        ReadClause(more, next, rest, left);
        StepAndMore(ts, bs, FactorCond(f), next, mid, ClauseCond(more), rest, left);
    }
    if StopsOr(rest) {
      StepOrLast(ts, bs, ClauseCond(c), rest, left);
    }
  }

  lemma {:induction false} ReadAlternatives(cs: Alternatives, ts: seq<Tok>, rest: seq<Tok>, left: seq<TypedBinding>)
    requires AlternativesOk(cs) && ts == Toks(AlternativePieces(cs)) + rest && StopsOr(rest)
    ensures ParseOr(ts, Params(AlternativePieces(cs)) + left) == Done(AlternativesCond(cs), rest, left)
    decreases cs, 2
  {
    hide ParseAnd, ParseOr, Toks, Params;
    match cs {
      case Last(c) => ReadClause(c, ts, rest, left);
      case More(c, more) =>
        PiecesAround(ClausePieces(c), OR, AlternativePieces(more));
        var next, mid := Toks(AlternativePieces(more)) + rest, Params(AlternativePieces(more)) + left;
        var bs := Params(AlternativePieces(cs)) + left;
        assert ts == Toks(ClausePieces(c)) + ([TWord(OR)] + next);
        assert bs == Params(ClausePieces(c)) + mid;
        ReadClause(c, ts, [TWord(OR)] + next, mid);
        ReadAlternatives(more, next, rest, left);
        StepOrMore(ts, bs, ClauseCond(c), next, mid, AlternativesCond(more), rest, left);
    }
  }
}
