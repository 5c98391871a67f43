// The predicate compiler: methods that build SQL text and push bindings, each
// proved to print the shape of its tree and to push that shape's bindings.
module Compiler {
  import opened Prelude
  import opened CatalogModel
  import opened SqlText
  import opened SqlMeaning
  import opened Clauses
  import opened Predicates
  import opened Shapes

  // ----- the binding map -----

  /** Positional bindings keyed by the decimals 1..n. */
  function Keyed(bs: seq<TypedBinding>): map<string, TypedBinding> {
    if bs == [] then map[] else Keyed(bs[..|bs| - 1])[Decimal(|bs|) := bs[|bs| - 1]]
  }

  function Keys(n: nat): set<string> {
    set k: nat | 1 <= k <= n :: Decimal(k)
  }

  lemma KeysStep(n: nat)
    requires n > 0
    ensures Keys(n) == Keys(n - 1) + {Decimal(n)} && Decimal(n) !in Keys(n - 1)
  {
    hide Decimal;
    if Decimal(n) in Keys(n - 1) {
      var k: nat :| 1 <= k <= n - 1 && Decimal(k) == Decimal(n);
      DecimalInjective(k, n);
    }
  }

  lemma NewKey(m: map<string, TypedBinding>, k: string, b: TypedBinding)
    requires k !in m
    ensures m[k := b].Keys == m.Keys + {k} && |m[k := b]| == |m| + 1
  {
    assert m[k := b].Keys == m.Keys + {k};
    assert |m[k := b]| == |m[k := b].Keys|;
  }

  lemma {:induction false} KeyedKeys(bs: seq<TypedBinding>)
    ensures Keyed(bs).Keys == Keys(|bs|)
    ensures |Keyed(bs)| == |bs|
  {
    hide Decimal;
    if bs == [] {
      assert Keys(0) == {};
    } else {
      var n := |bs|;
      assert Keyed(bs) == Keyed(bs[..n - 1])[Decimal(n) := bs[n - 1]];
      hide *;
      KeyedKeys(bs[..n - 1]);
      KeysStep(n);
      NewKey(Keyed(bs[..n - 1]), Decimal(n), bs[n - 1]);
    }
  }

  lemma {:induction false} KeyedAt(bs: seq<TypedBinding>, k: nat)
    requires 1 <= k <= |bs|
    ensures Decimal(k) in Keyed(bs) && Keyed(bs)[Decimal(k)] == bs[k - 1]
  {
    hide Decimal;
    var n := |bs|;
    if k < n {
      KeyedAt(bs[..n - 1], k);
      if Decimal(k) == Decimal(n) {
        DecimalInjective(k, n);
      }
    }
  }

  /** The keys are exactly the decimals 1..n, and key k holds the k-th binding. */
  lemma KeyedExact(bs: seq<TypedBinding>)
    ensures Keyed(bs).Keys == Keys(|bs|) && |Keyed(bs)| == |bs|
    ensures forall k :: 1 <= k <= |bs| ==> Decimal(k) in Keyed(bs) && Keyed(bs)[Decimal(k)] == bs[k - 1]
  {
    KeyedKeys(bs);
    forall k | 1 <= k <= |bs|
      ensures Decimal(k) in Keyed(bs) && Keyed(bs)[Decimal(k)] == bs[k - 1]
    {
      KeyedAt(bs, k);
    }
  }

  /** The mutable binding map and counter threaded through compilation. */
  class BindingTable {
    var bindings: map<string, TypedBinding>
    var nextBinding: nat
    ghost var pushed: seq<TypedBinding>

    ghost predicate Valid()
      reads this
    {
      bindings == Keyed(pushed) && nextBinding == |pushed| + 1
    }

    constructor ()
      ensures Valid() && pushed == [] && fresh(this)
    {
      bindings, nextBinding, pushed := map[], 1, [];
    }

    method Push(dtype: DtypeClass, value: string) returns (placeholder: string)
      requires Valid()
      modifies this
      ensures Valid() && pushed == old(pushed) + [BindingFor(dtype, value)]
      ensures placeholder == "?"
    {
      var key := Decimal(nextBinding);
      var bindingType := SqlApiBindingType(dtype, value);
      var stored := if bindingType == "BOOLEAN" then AsciiLower(value) else value;
      bindings := bindings[key := TypedBinding(bindingType, stored)];
      nextBinding := nextBinding + 1;
      pushed := pushed + [BindingFor(dtype, value)];
      assert pushed[..|pushed| - 1] == old(pushed);
      placeholder := "?";
    }
  }

  // ----- text of pieces -----

  lemma TextAround(a: seq<Piece>, word: Keyword, b: seq<Piece>)
    ensures RenderAll(a + Spaced(word) + b) == RenderAll(a) + (" " + KeywordText(word) + " ") + RenderAll(b)
  {
    hide RenderAll, QuoteIdentifier;
    RenderConcat(a, Spaced(word));
    RenderConcat(a + Spaced(word), b);
    PiecesOfKeyword(word);
  }

  lemma TextBracketed(ps: seq<Piece>)
    ensures RenderAll(Bracketed(ps)) == "(" + RenderAll(ps) + ")"
  {
    hide RenderAll, QuoteIdentifier;
    RenderConcat([Sym("(")], ps);
    RenderConcat([Sym("(")] + ps, [Sym(")")]);
    OnePiece(Sym("("));
    OnePiece(Sym(")"));
  }

  lemma TextOfCompare(column: string, op: Comparison, b: TypedBinding)
    ensures RenderAll(TestPieces(Compare(column, op, b))) == QuoteIdentifier(column) + " " + OpText(op) + " ?"
  {
    hide RenderAll, QuoteIdentifier;
    var x, y := [Ident(column), Space, Sym(OpText(op))], [Space, Param(b)];
    assert TestPieces(Compare(column, op, b)) == x + y;
    RenderConcat(x, y);
    ThreePieces(Ident(column), Space, Sym(OpText(op)));
    TwoPieces(Space, Param(b));
  }

  lemma BetweenText(name: string)
    ensures name + (" " + "BETWEEN" + " ") + "?" + (" " + "AND" + " ") + "?" == name + " BETWEEN ? AND ?"
  {
  }

  lemma TextOfBetween(column: string, low: TypedBinding, high: TypedBinding)
    ensures RenderAll(TestPieces(Between(column, low, high))) == QuoteIdentifier(column) + " BETWEEN ? AND ?"
  {
    hide RenderAll, QuoteIdentifier;
    TextAround([Ident(column)], BETWEEN, [Param(low)]);
    TextAround([Ident(column)] + Spaced(BETWEEN) + [Param(low)], AND, [Param(high)]);
    OnePiece(Ident(column));
    OnePiece(Param(low));
    OnePiece(Param(high));
    BetweenText(QuoteIdentifier(column));
  }

  function Marks(n: nat): seq<string> {
    seq(n, _ => "?")
  }

  lemma {:induction false} TextOfList(bs: seq<TypedBinding>)
    ensures RenderAll(ListPieces(bs)) == Join(Marks(|bs|), ", ")
  {
    if |bs| == 1 {
      OnePiece(Param(bs[0]));
    } else if |bs| > 1 {
      hide RenderAll;
      TextOfList(bs[1..]);
      RenderConcat([Param(bs[0]), Sym(","), Space], ListPieces(bs[1..]));
      PiecesOfComma(bs[0]);
      assert Marks(|bs|)[1..] == Marks(|bs[1..]|);
      assert "?" + ", " == "?, ";
    }
  }

  lemma InText(name: string, marks: string)
    ensures name + " IN " + ("(" + marks + ")") == name + " IN (" + marks + ")"
  {
    assert " IN " + "(" == " IN (";
    AppendAssociates(name, " IN ", "(");
    AppendAssociates(name + " IN ", "(", marks);
    AppendAssociates(name + " IN ", "(" + marks, ")");
  }

  lemma TextOfIn(column: string, bs: seq<TypedBinding>)
    ensures RenderAll(TestPieces(InList(column, bs)))
         == QuoteIdentifier(column) + " IN (" + Join(Marks(|bs|), ", ") + ")"
  {
    hide RenderAll, QuoteIdentifier, Join, Marks, ListPieces;
    TextOfList(bs);
    TextBracketed(ListPieces(bs));
    TextAround([Ident(column)], IN, Bracketed(ListPieces(bs)));
    OnePiece(Ident(column));
    InText(QuoteIdentifier(column), Join(Marks(|bs|), ", "));
  }

  lemma TextOfIsNull(column: string, negated: bool)
    ensures RenderAll(TestPieces(IsNull(column, negated)))
         == QuoteIdentifier(column) + (if negated then " IS NOT NULL" else " IS NULL")
  {
    hide RenderAll, QuoteIdentifier;
    var name, not := [Ident(column)], [Word(NOT), Space];
    OnePiece(Ident(column));
    OnePiece(Word(NULL));
    TwoPieces(Word(NOT), Space);
    RenderConcat(not, [Word(NULL)]);
    var tail := if negated then not + [Word(NULL)] else [Word(NULL)];
    TextAround(name, IS, tail);
    assert TestPieces(IsNull(column, negated)) == name + Spaced(IS) + tail;
    AppendAssociates(QuoteIdentifier(column), " " + KeywordText(IS) + " ", RenderAll(tail));
    hide KeywordText;
    IsNullLiterals();
  }

  lemma IsNullLiterals()
    ensures " " + KeywordText(IS) + " " + KeywordText(NULL) == " IS NULL"
    ensures " " + KeywordText(IS) + " " + (KeywordText(NOT) + " " + KeywordText(NULL)) == " IS NOT NULL"
  {
  }

  lemma Regroup<T>(a: seq<T>, b: seq<T>, c: seq<T>, d: seq<T>, x: seq<T>, e: seq<T>, f: seq<T>)
    ensures a + (b + (c + d + x) + e) + f == (a + b + c + d) + x + (e + f)
  {
  }

  lemma ContainsText(name: string)
    ensures Render(Word(POSITION)) + ("(" + (Render(Param(TypedBinding("", ""))) + (" " + KeywordText(IN) + " ") + name) + ")")
            + (" " + ">" + (" " + "0"))
         == "POSITION(? IN " + name + ") > 0"
  {
    assert " " + "IN" + " " == " IN ";
    ContainsLiterals();
    Regroup("POSITION", "(", "?", " IN ", name, ")", " " + ">" + (" " + "0"));
  }

  lemma ContainsLiterals()
    ensures "POSITION" + "(" + "?" + " IN " == "POSITION(? IN "
    ensures ")" + (" " + ">" + (" " + "0")) == ") > 0"
  {
  }

  lemma TextOfTail()
    ensures RenderAll([Space, Sym(">")] + [Space, Word(ZERO)]) == " " + ">" + (" " + "0")
  {
    RenderConcat([Space, Sym(">")], [Space, Word(ZERO)]);
    TwoPieces(Space, Sym(">"));
    TwoPieces(Space, Word(ZERO));
    hide RenderAll;
  }

  lemma PiecesAreContains(column: string, b: TypedBinding, inner: seq<Piece>, tail: seq<Piece>)
    requires inner == [Param(b)] + Spaced(IN) + [Ident(column)] && tail == [Space, Sym(">")] + [Space, Word(ZERO)]
    ensures TestPieces(Contains(column, b)) == [Word(POSITION)] + Bracketed(inner) + tail
  {
  }

  lemma MarkText(b: TypedBinding)
    ensures Render(Param(b)) == Render(Param(TypedBinding("", "")))
  {
  }

  lemma IdentText(column: string)
    ensures Render(Ident(column)) == QuoteIdentifier(column)
  {
    hide QuoteIdentifier;
  }

  lemma TextOfContains(column: string, b: TypedBinding)
    ensures RenderAll(TestPieces(Contains(column, b))) == "POSITION(? IN " + QuoteIdentifier(column) + ") > 0"
  {
    hide *;
    var inner, tail := [Param(b)] + Spaced(IN) + [Ident(column)], [Space, Sym(">")] + [Space, Word(ZERO)];
    PiecesAreContains(column, b, inner, tail);
    TextAround([Param(b)], IN, [Ident(column)]);
    TextBracketed(inner);
    OnePiece(Param(b));
    MarkText(b);
    OnePiece(Ident(column));
    IdentText(column);
    OnePiece(Word(POSITION));
    RenderConcat([Word(POSITION)], Bracketed(inner));
    RenderConcat([Word(POSITION)] + Bracketed(inner), tail);
    TextOfTail();
    ContainsText(QuoteIdentifier(column));
  }

  function ClauseText(c: Clause): string {
    RenderAll(ClausePieces(c))
  }

  lemma {:induction false} AppendPieces(c: Clause, d: Clause)
    ensures ClausePieces(Append(c, d)) == ClausePieces(c) + Spaced(AND) + ClausePieces(d)
  {
    if c.Conj? {
      AppendPieces(c.rest, d);
    }
  }

  lemma {:induction false} ConcatText(cs: seq<Clause>, texts: seq<string>)
    requires cs != [] && |texts| == |cs|
    requires forall i :: 0 <= i < |cs| ==> texts[i] == ClauseText(cs[i])
    ensures Join(texts, " AND ") == ClauseText(Concat(cs))
    ensures Join(texts, " OR ") == RenderAll(AlternativePieces(AlternativesOf(cs)))
    ensures Params(ClausePieces(Concat(cs))) == Params(AlternativePieces(AlternativesOf(cs)))
  {
    assert KeywordText(AND) == "AND" && KeywordText(OR) == "OR";
    hide KeywordText;
    if |cs| > 1 {
      assert " " + "AND" + " " == " AND " && " " + "OR" + " " == " OR ";
      hide RenderAll, Params;
      ConcatText(cs[1..], texts[1..]);
      var rest, others := Concat(cs[1..]), AlternativePieces(AlternativesOf(cs[1..]));
      AppendPieces(cs[0], rest);
      TextAround(ClausePieces(cs[0]), AND, ClausePieces(rest));
      TextAround(ClausePieces(cs[0]), OR, others);
      PiecesAround(ClausePieces(cs[0]), AND, ClausePieces(rest));
      PiecesAround(ClausePieces(cs[0]), OR, others);
    }
  }

  function EachParams(cs: seq<Clause>): seq<TypedBinding> {
    if cs == [] then [] else Params(ClausePieces(cs[0])) + EachParams(cs[1..])
  }

  lemma {:induction false} ConcatParams(cs: seq<Clause>)
    requires cs != []
    ensures Params(ClausePieces(Concat(cs))) == EachParams(cs)
  {
    if |cs| > 1 {
      ConcatParams(cs[1..]);
      AppendPieces(cs[0], Concat(cs[1..]));
      PiecesAround(ClausePieces(cs[0]), AND, ClausePieces(Concat(cs[1..])));
    } else {
      assert EachParams(cs) == Params(ClausePieces(cs[0])) + [];
    }
  }

  // ----- compiling -----

  datatype Compiled = Compiled(sql: string, leafCount: nat)

  /** What a compile call promises: its text prints the shape, its leaf count is the
      tree's, and the bindings it pushed are the shape's, in text order. */
  predicate Prints(r: Result<Option<Compiled>, PlanRefusal>, shape: Result<Option<Clause>, PlanRefusal>, leaves: nat,
                   before: seq<TypedBinding>, after: seq<TypedBinding>)
  {
    match shape
    case Err(e) => r == Err(e)
    case Ok(None) => r == Ok(None) && after == before
    case Ok(Some(c)) =>
      r == Ok(Some(Compiled(ClauseText(c), leaves))) && after == before + Params(ClausePieces(c))
  }

  method CompileLeaf(leaf: LeafPredicate, columns: seq<ColumnEntry>, uni: Unicode, table: BindingTable)
    returns (r: Result<Compiled, PlanRefusal>)
    requires table.Valid()
    modifies table
    ensures table.Valid()
    ensures match ShapeLeaf(leaf, columns, uni)
            case Err(e) => r == Err(e)
            case Ok(t) => r == Ok(Compiled(RenderAll(TestPieces(t)), 1)) && table.pushed == old(table.pushed) + TestParams(t)
  {
    hide OperatorNamed, QuoteIdentifier, BindingFor, RenderAll, Join, TestPieces, Keyed, ValueAt;
    var column := FindColumn(uni, leaf.column, columns);
    if column.None? {
      return Err(COLUMN_UNKNOWN);
    }
    var name, dtype := column.value.column, column.value.dtype;
    var identifier := QuoteIdentifier(name);
    var values := ValueStrings(leaf.value);
    ghost var first := BindingFor(dtype, ValueAt(values, 0));
    match OperatorNamed(leaf.op) {
      case OpCompare(op) =>
        var mark := table.Push(dtype, ValueAt(values, 0));
        r := Ok(Compiled(identifier + " " + OpText(op) + " " + mark, 1));
        TextOfCompare(name, op, first);
        assert " " + "?" == " ?";
        AppendAssociates(identifier + " " + OpText(op), " ", "?");
      case OpBetween =>
        var left := table.Push(dtype, ValueAt(values, 0));
        var right := table.Push(dtype, ValueAt(values, 1));
        r := Ok(Compiled(identifier + (" BETWEEN " + left + " AND " + right), 1));
        TextOfBetween(name, first, BindingFor(dtype, ValueAt(values, 1)));
        assert " BETWEEN " + "?" + " AND " + "?" == " BETWEEN ? AND ?";
      case OpIn =>
        var marks := PushEach(dtype, values, table);
        r := Ok(Compiled(identifier + " IN (" + Join(marks, ", ") + ")", 1));
        TextOfIn(name, BindEach(dtype, values));
      case OpIsNull =>
        r := Ok(Compiled(identifier + " IS NULL", 1));
        TextOfIsNull(name, false);
      case OpIsNotNull =>
        r := Ok(Compiled(identifier + " IS NOT NULL", 1));
        TextOfIsNull(name, true);
      case OpContains =>
        var mark := table.Push(dtype, ValueAt(values, 0));
        r := Ok(Compiled("POSITION(" + mark + " IN " + identifier + ") > 0", 1));
        TextOfContains(name, first);
        assert "POSITION(" + "?" + " IN " == "POSITION(? IN ";
      case OpUnsupported =>
        r := Err(OPERATOR_UNSUPPORTED);
    }
  }

  /** `values.into_iter().map(bind)`. */
  method PushEach(dtype: DtypeClass, values: seq<string>, table: BindingTable) returns (marks: seq<string>)
    requires table.Valid()
    modifies table
    ensures table.Valid() && table.pushed == old(table.pushed) + BindEach(dtype, values)
    ensures |BindEach(dtype, values)| == |values| && marks == Marks(|values|)
  {
    marks := [];
    for i := 0 to |values|
      invariant table.Valid() && marks == Marks(i)
      invariant table.pushed + BindEach(dtype, values[i..]) == old(table.pushed) + BindEach(dtype, values)
    {
      assert values[i..][0] == values[i] && values[i..][1..] == values[i + 1..];
      ghost var before := table.pushed;
      var mark := table.Push(dtype, values[i]);
      marks := marks + [mark];
      AppendAssociates(before, [BindingFor(dtype, values[i])], BindEach(dtype, values[i + 1..]));
    }
    BindEachLength(dtype, values);
  }

  lemma {:induction false} BindEachLength(dtype: DtypeClass, values: seq<string>)
    ensures |BindEach(dtype, values)| == |values|
  {
    if values != [] {
      BindEachLength(dtype, values[1..]);
    }
  }

  method CompilePredicate(p: PredicateAst, columns: seq<ColumnEntry>, uni: Unicode, table: BindingTable)
    returns (r: Result<Option<Compiled>, PlanRefusal>)
    requires table.Valid()
    modifies table
    ensures table.Valid()
    ensures Prints(r, Shape(p, columns, uni), LeafCount(p), old(table.pushed), table.pushed)
    decreases p, 2
  {
    match p {
      case Compound(_, _, _) =>
        r := CompileCompound(p, columns, uni, table);
      case Single(leaf) =>
        var compiled := CompileLeaf(leaf, columns, uni, table);
        match compiled {
          case Err(e) => r := Err(e);
          case Ok(c) =>
            r := Ok(Some(c));
            ghost var t := ShapeLeaf(leaf, columns, uni).value;
            PiecesOfTest(t);
            assert ClausePieces(One(Leaf(t))) == TestPieces(t);
        }
    }
  }

  /** A compiled child list: the children's texts and the number of leaves. */
  predicate PrintsMany(texts: seq<string>, cs: seq<Clause>) {
    |texts| == |cs| && forall i :: 0 <= i < |cs| ==> texts[i] == ClauseText(cs[i])
  }

  /** The text of a bracketed list of clauses. */
  function ManyText(joiner: string, cs: seq<Clause>): string
    requires cs != []
  {
    "(" + (if joiner == " AND " then ClauseText(Concat(cs)) else RenderAll(AlternativePieces(AlternativesOf(cs)))) + ")"
  }

  /** What compiling a list of children returns and pushes. */
  predicate PrintsList(r: Result<Option<Compiled>, PlanRefusal>, shapes: Result<seq<Clause>, PlanRefusal>, joiner: string,
                       leaves: nat, before: seq<TypedBinding>, after: seq<TypedBinding>)
  {
    match shapes
    case Err(e) => r == Err(e)
    case Ok(cs) =>
      if cs == [] then r == Ok(None) && after == before
      else r == Ok(Some(Compiled(ManyText(joiner, cs), leaves))) && after == before + EachParams(cs)
  }

  method CompileMany(joiner: string, ps: seq<PredicateAst>, columns: seq<ColumnEntry>, uni: Unicode,
                     table: BindingTable)
    returns (r: Result<Option<Compiled>, PlanRefusal>)
    requires table.Valid() && joiner in [" AND ", " OR "]
    modifies table
    ensures table.Valid()
    ensures PrintsList(r, ShapeMany(ps, columns, uni), joiner, LeafCounts(ps), old(table.pushed), table.pushed)
    decreases ps, 0
  {
    hide *;
    ghost var shapes, start := ShapeMany(ps, columns, uni), table.pushed;
    var texts: seq<string> := [];
    var leafCount := 0;
    ghost var done: seq<Clause> := [];
    assert ps[0..] == ps;
    ManyStart(shapes, start);
    for i := 0 to |ps|
      invariant table.Valid() && PrintsMany(texts, done)
      invariant table.pushed == start + EachParams(done)
      invariant leafCount + LeafCounts(ps[i..]) == LeafCounts(ps)
      invariant shapes == Prefixed(done, ShapeMany(ps[i..], columns, uni))
    {
      LeafCountsStep(ps, i);
      ManyStep(done, ps, i, columns, uni);
      ghost var before, shape := table.pushed, Shape(ps[i], columns, uni);
      var compiled := CompilePredicate(ps[i], columns, uni, table);
      PrintsIs(compiled, shape, LeafCount(ps[i]), before, table.pushed);
      if compiled.Err? {
        r := Err(compiled.error);
        ManyRefused(r, shapes, joiner, LeafCounts(ps), start, table.pushed);
        return;
      }
      if compiled.value.Some? {
        ghost var c := shape.value.value;
        PrintsOneMore(texts, done, c);
        EachParamsSnoc(done, c);
        AppendAssociates(start, EachParams(done), Params(ClausePieces(c)));
        leafCount := leafCount + compiled.value.value.leafCount;
        texts := texts + [compiled.value.value.sql];
        done := done + [c];
      } else {
        ShapePrintsLeaves(ps[i], columns, uni);
      }
    }
    assert ps[|ps|..] == [];
    ManyEnd(done, columns, uni);
    PrintsSameLength(texts, done);
    if texts == [] {
      r := Ok(None);
    } else {
      r := Ok(Some(Compiled("(" + Join(texts, joiner) + ")", leafCount)));
    }
    ManyPrinted(r, texts, done, joiner, leafCount, start);
  }

  lemma ManyStart(shapes: Result<seq<Clause>, PlanRefusal>, start: seq<TypedBinding>)
    ensures shapes == Prefixed([], shapes) && PrintsMany([], []) && start == start + EachParams([])
  {
    PrefixedNone(shapes);
    assert EachParams([]) == [];
  }

  lemma PrintsIs(r: Result<Option<Compiled>, PlanRefusal>, shape: Result<Option<Clause>, PlanRefusal>, leaves: nat,
                 before: seq<TypedBinding>, after: seq<TypedBinding>)
    requires Prints(r, shape, leaves, before, after)
    ensures r.Err? <==> shape.Err?
    ensures r.Err? ==> r.error == shape.error
    ensures r.Ok? ==> (r.value.Some? <==> shape.value.Some?)
    ensures r.Ok? && r.value.None? ==> after == before
    ensures r.Ok? && r.value.Some? ==>
              && r.value.value == Compiled(ClauseText(shape.value.value), leaves)
              && after == before + Params(ClausePieces(shape.value.value))
  {
    hide ClauseText, ClausePieces, Params;
  }

  /** The shapes still to come, before and after one child. */
  lemma ManyStep(done: seq<Clause>, ps: seq<PredicateAst>, i: nat, columns: seq<ColumnEntry>, uni: Unicode)
    requires i < |ps|
    ensures var all, shape := Prefixed(done, ShapeMany(ps[i..], columns, uni)), Shape(ps[i], columns, uni);
      && (shape.Err? ==> all == Err(shape.error))
      && (shape.Ok? && shape.value.None? ==> all == Prefixed(done, ShapeMany(ps[i + 1..], columns, uni)))
      && (shape.Ok? && shape.value.Some? ==>
           all == Prefixed(done + [shape.value.value], ShapeMany(ps[i + 1..], columns, uni)))
  {
    PrefixedStep(done, ps[i..], columns, uni);
    assert ps[i..][0] == ps[i] && ps[i..][1..] == ps[i + 1..];
    hide Shape, ShapeMany, Prefixed;
    assert done + [] == done;
  }

  lemma ManyRefused(r: Result<Option<Compiled>, PlanRefusal>, shapes: Result<seq<Clause>, PlanRefusal>, joiner: string,
                    leaves: nat, before: seq<TypedBinding>, after: seq<TypedBinding>)
    requires r.Err? && shapes == Err(r.error)
    ensures PrintsList(r, shapes, joiner, leaves, before, after)
  {
  }

  lemma ManyEnd(done: seq<Clause>, columns: seq<ColumnEntry>, uni: Unicode)
    ensures Prefixed(done, ShapeMany([], columns, uni)) == Ok(done) && LeafCounts([]) == 0
  {
    assert done + [] == done;
  }

  lemma ManyPrinted(r: Result<Option<Compiled>, PlanRefusal>, texts: seq<string>, cs: seq<Clause>, joiner: string,
                    leaves: nat, start: seq<TypedBinding>)
    requires joiner in [" AND ", " OR "] && PrintsMany(texts, cs)
    requires texts == [] <==> cs == []
    requires r == if texts == [] then Ok(None) else Ok(Some(Compiled("(" + Join(texts, joiner) + ")", leaves)))
    ensures PrintsList(r, Ok(cs), joiner, leaves, start, start + EachParams(cs))
  {
    hide ClauseText, Concat, AlternativesOf, RenderAll, Join;
    if cs == [] {
      assert start + [] == start;
    } else {
      ConcatText(cs, texts);
    }
  }

  lemma LeafCountsStep(ps: seq<PredicateAst>, i: nat)
    requires i < |ps|
    ensures LeafCounts(ps[i..]) == LeafCount(ps[i]) + LeafCounts(ps[i + 1..])
  {
    hide LeafCount;
    assert ps[i..][0] == ps[i] && ps[i..][1..] == ps[i + 1..];
  }

  lemma PrintsOneMore(texts: seq<string>, cs: seq<Clause>, c: Clause)
    requires PrintsMany(texts, cs)
    ensures PrintsMany(texts + [ClauseText(c)], cs + [c])
  {
    hide ClauseText;
  }

  lemma PrintsSameLength(texts: seq<string>, cs: seq<Clause>)
    requires PrintsMany(texts, cs)
    ensures texts == [] <==> cs == []
  {
  }

  function Prefixed(done: seq<Clause>, r: Result<seq<Clause>, PlanRefusal>): Result<seq<Clause>, PlanRefusal> {
    match r
    case Err(e) => Err(e)
    case Ok(cs) => Ok(done + cs)
  }

  lemma PrefixedNone(r: Result<seq<Clause>, PlanRefusal>)
    ensures Prefixed([], r) == r
  {
    if r.Ok? {
      assert [] + r.value == r.value;
    }
  }

  lemma PrefixedStep(done: seq<Clause>, ps: seq<PredicateAst>, columns: seq<ColumnEntry>, uni: Unicode)
    requires ps != []
    ensures Prefixed(done, ShapeMany(ps, columns, uni))
         == match Shape(ps[0], columns, uni)
            case Err(e) => Err(e)
            case Ok(c) => Prefixed(done + (if c.None? then [] else [c.value]), ShapeMany(ps[1..], columns, uni))
  {
    var first, rest := Shape(ps[0], columns, uni), ShapeMany(ps[1..], columns, uni);
    if first.Ok? && rest.Ok? {
      AppendAssociates(done, if first.value.None? then [] else [first.value.value], rest.value);
    }
  }

  lemma {:induction false} EachParamsSnoc(cs: seq<Clause>, c: Clause)
    ensures EachParams(cs + [c]) == EachParams(cs) + Params(ClausePieces(c))
  {
    if cs == [] {
      assert [c][1..] == [] && [] + [c] == [c];
    } else {
      assert (cs + [c])[1..] == cs[1..] + [c];
      EachParamsSnoc(cs[1..], c);
    }
  }

  // The text of a compound's parts.

  function PartText(f: Option<Factor>): seq<string> {
    if f.None? then [] else [RenderAll(FactorPieces(f.value))]
  }

  function PartParams(f: Option<Factor>): seq<TypedBinding> {
    if f.None? then [] else Params(FactorPieces(f.value))
  }

  function OptionParams(c: Option<Clause>): seq<TypedBinding> {
    if c.None? then [] else Params(ClausePieces(c.value))
  }

  /** The parts' texts joined by AND are the text of the parts' clause. */
  predicate JoinsTo(texts: seq<string>, c: Option<Clause>) {
    if c.None? then texts == [] else texts != [] && Join(texts, " AND ") == ClauseText(c.value)
  }

  lemma JoinMore(text: string, texts: seq<string>)
    requires texts != []
    ensures Join([text] + texts, " AND ") == text + " AND " + Join(texts, " AND ")
  {
    assert ([text] + texts)[1..] == texts;
  }

  lemma AndText()
    ensures " " + KeywordText(AND) + " " == " AND "
  {
    assert KeywordText(AND) == "AND";
    assert " " + "AND" + " " == " AND ";
  }

  lemma BeforeText(f: Option<Factor>, c: Option<Clause>, texts: seq<string>)
    requires JoinsTo(texts, c)
    ensures JoinsTo(PartText(f) + texts, Before(f, c))
    ensures OptionParams(Before(f, c)) == PartParams(f) + OptionParams(c)
  {
    if f.None? {
      assert PartText(f) + texts == texts;
    } else if c.Some? {
      hide RenderAll, Params, Join, KeywordText;
      TextAround(FactorPieces(f.value), AND, ClausePieces(c.value));
      PiecesAround(FactorPieces(f.value), AND, ClausePieces(c.value));
      AndText();
      JoinMore(RenderAll(FactorPieces(f.value)), texts);
    } else {
      assert PartText(f) + texts == PartText(f);
    }
  }

  lemma CompoundIs(conj: seq<Clause>, disj: seq<Clause>, neg: Option<Clause>)
    ensures CompoundClause(conj, disj, neg) == Before(AllPart(conj), Before(AnyPart(disj), Before(NotPart(neg), None)))
    ensures OptionParams(None) == [] && JoinsTo([], None)
  {
    hide AllPart, AnyPart, NotPart, Before;
  }

  lemma CompoundText(conj: seq<Clause>, disj: seq<Clause>, neg: Option<Clause>)
    ensures JoinsTo(PartText(AllPart(conj)) + PartText(AnyPart(disj)) + PartText(NotPart(neg)),
                    CompoundClause(conj, disj, neg))
    ensures OptionParams(CompoundClause(conj, disj, neg)) == EachParams(conj) + EachParams(disj) + OptionParams(neg)
  {
    hide *;
    var c3 := Before(NotPart(neg), None);
    var c2 := Before(AnyPart(disj), c3);
    var last := PartText(NotPart(neg));
    CompoundIs(conj, disj, neg);
    assert last + [] == last;
    BeforeText(NotPart(neg), None, []);
    BeforeText(AnyPart(disj), c3, last);
    BeforeText(AllPart(conj), c2, PartText(AnyPart(disj)) + last);
    AppendAssociates(PartText(AllPart(conj)), PartText(AnyPart(disj)), last);
    AllPartParams(conj);
    AnyPartParams(disj);
    NotPartText(neg);
    assert OptionParams(neg) + [] == OptionParams(neg);
    AppendAssociates(EachParams(conj), EachParams(disj), OptionParams(neg));
  }

  lemma AllPartParams(cs: seq<Clause>)
    ensures PartParams(AllPart(cs)) == EachParams(cs)
    ensures cs != [] ==> PartText(AllPart(cs)) == ["(" + ClauseText(Concat(cs)) + ")"]
  {
    if cs != [] {
      ConcatParams(cs);
      PiecesOfBracketed(ClausePieces(Concat(cs)));
      TextBracketed(ClausePieces(Concat(cs)));
    }
  }

  lemma AnyPartParams(cs: seq<Clause>)
    ensures PartParams(AnyPart(cs)) == EachParams(cs)
    ensures cs != [] ==> PartText(AnyPart(cs)) == ["(" + RenderAll(AlternativePieces(AlternativesOf(cs))) + ")"]
  {
    if cs != [] {
      ConcatParams(cs);
      ConcatText(cs, seq(|cs|, i requires 0 <= i < |cs| => ClauseText(cs[i])));
      PiecesOfBracketed(AlternativePieces(AlternativesOf(cs)));
      TextBracketed(AlternativePieces(AlternativesOf(cs)));
    }
  }

  lemma NegatedPieces(c: Clause)
    ensures FactorPieces(Negated(c)) == [Word(NOT), Space] + Bracketed(ClausePieces(c))
  {
    hide ClausePieces, Bracketed;
  }

  lemma NegatedText(text: string)
    ensures "NOT" + " " + ("(" + text + ")") == "NOT (" + text + ")"
  {
    assert "NOT" + " " + "(" == "NOT (";
    AppendAssociates("NOT" + " ", "(", text);
    AppendAssociates("NOT" + " ", "(" + text, ")");
  }

  lemma NotPartIs(c: Option<Clause>)
    ensures c.None? ==> PartParams(NotPart(c)) == OptionParams(c) == []
    ensures c.Some? ==> OptionParams(c) == Params(ClausePieces(c.value)) && ClauseText(c.value) == RenderAll(ClausePieces(c.value))
    ensures c.Some? ==> PartParams(NotPart(c)) == Params(FactorPieces(Negated(c.value)))
    ensures c.Some? ==> PartText(NotPart(c)) == [RenderAll(FactorPieces(Negated(c.value)))]
    ensures Render(Word(NOT)) == "NOT" && Render(Space) == " "
  {
    hide ClausePieces, Bracketed, Params, RenderAll, FactorPieces;
  }

  lemma NotPartText(c: Option<Clause>)
    ensures PartParams(NotPart(c)) == OptionParams(c)
    ensures c.Some? ==> PartText(NotPart(c)) == ["NOT (" + ClauseText(c.value) + ")"]
  {
    hide *;
    NotPartIs(c);
    if c.Some? {
      var pieces := ClausePieces(c.value);
      NegatedPieces(c.value);
      TwoPieces(Word(NOT), Space);
      OnePiece(Word(NOT));
      OnePiece(Space);
      RenderConcat([Word(NOT), Space], Bracketed(pieces));
      ParamsConcat([Word(NOT), Space], Bracketed(pieces));
      PiecesOfBracketed(pieces);
      TextBracketed(pieces);
      NegatedText(ClauseText(c.value));
      assert [] + Params(pieces) == Params(pieces);
    }
  }

  /** Joining the parts of a compound prints its shape. */
  lemma CompoundPrints(p: PredicateAst, columns: seq<ColumnEntry>, uni: Unicode, n: Option<Clause>,
                       parts: seq<string>, leafCount: nat, before: seq<TypedBinding>)
    requires p.Compound? && ShapeMany(p.conj, columns, uni).Ok? && ShapeMany(p.disj, columns, uni).Ok?
    requires if p.neg.None? then n == None else Shape(p.neg.value, columns, uni) == Ok(n)
    requires parts == PartText(AllPart(ShapeMany(p.conj, columns, uni).value))
                    + PartText(AnyPart(ShapeMany(p.disj, columns, uni).value)) + PartText(NotPart(n))
    requires leafCount == LeafCount(p)
    ensures Prints(if parts == [] then Ok(None) else Ok(Some(Compiled(Join(parts, " AND "), leafCount))),
                   Shape(p, columns, uni), LeafCount(p), before,
                   before + (EachParams(ShapeMany(p.conj, columns, uni).value)
                             + EachParams(ShapeMany(p.disj, columns, uni).value) + OptionParams(n)))
  {
    hide RenderAll, Params, EachParams, Join, PartText, CompoundClause;
    CompoundText(ShapeMany(p.conj, columns, uni).value, ShapeMany(p.disj, columns, uni).value, n);
    assert before + [] == before;
  }

  method CompileCompound(p: PredicateAst, columns: seq<ColumnEntry>, uni: Unicode, table: BindingTable)
    returns (r: Result<Option<Compiled>, PlanRefusal>)
    requires table.Valid() && p.Compound?
    modifies table
    ensures table.Valid()
    ensures Prints(r, Shape(p, columns, uni), LeafCount(p), old(table.pushed), table.pushed)
    decreases p, 1
  {
    hide RenderAll, Params, EachParams, Keyed, ClauseText, FactorPieces, Concat, AlternativesOf, Join;
    var parts: seq<string> := [];
    var leafCount := 0;
    var conj := CompileMany(" AND ", p.conj, columns, uni, table);
    if conj.Err? {
      return Err(conj.error);
    }
    ghost var cs := ShapeMany(p.conj, columns, uni).value;
    AllPartParams(cs);
    if conj.value.Some? {
      leafCount := leafCount + conj.value.value.leafCount;
      parts := parts + [conj.value.value.sql];
    }
    assert parts == PartText(AllPart(cs)) && table.pushed == old(table.pushed) + EachParams(cs);
    var disj := CompileMany(" OR ", p.disj, columns, uni, table);
    if disj.Err? {
      return Err(disj.error);
    }
    ghost var ds := ShapeMany(p.disj, columns, uni).value;
    AnyPartParams(ds);
    ShapeManyPrintsLeaves(p.conj, columns, uni);
    ShapeManyPrintsLeaves(p.disj, columns, uni);
    if disj.value.Some? {
      leafCount := leafCount + disj.value.value.leafCount;
      parts := parts + [disj.value.value.sql];
    }
    assert parts == PartText(AllPart(cs)) + PartText(AnyPart(ds));
    assert table.pushed == old(table.pushed) + EachParams(cs) + EachParams(ds);
    ghost var n := None;
    if p.neg.Some? {
      var neg := CompilePredicate(p.neg.value, columns, uni, table);
      if neg.Err? {
        return Err(neg.error);
      }
      n := Shape(p.neg.value, columns, uni).value;
      NotPartText(n);
      ShapePrintsLeaves(p.neg.value, columns, uni);
      if neg.value.Some? {
        leafCount := leafCount + neg.value.value.leafCount;
        parts := parts + ["NOT (" + neg.value.value.sql + ")"];
      }
    }
    assert parts == PartText(AllPart(cs)) + PartText(AnyPart(ds)) + PartText(NotPart(n));
    assert table.pushed == old(table.pushed) + EachParams(cs) + EachParams(ds) + OptionParams(n);
    CompoundPrints(p, columns, uni, n, parts, leafCount, old(table.pushed));
    if parts == [] {
      r := Ok(None);
    } else {
      r := Ok(Some(Compiled(Join(parts, " AND "), leafCount)));
    }
    AppendAssociates(old(table.pushed) + EachParams(cs), EachParams(ds), OptionParams(n));
    AppendAssociates(old(table.pushed), EachParams(cs), EachParams(ds) + OptionParams(n));
    AppendAssociates(EachParams(cs), EachParams(ds), OptionParams(n));
  }
}
