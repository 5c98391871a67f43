// The shape a predicate tree compiles to, or the refusal, and what the shape
// means, counts and binds.
module Shapes {
  import opened Prelude
  import opened CatalogModel
  import opened SqlText
  import opened SqlMeaning
  import opened Clauses
  import opened Predicates

  datatype PlanRefusal = PlanRefusal(code: string)

  const COLUMN_UNKNOWN := PlanRefusal("FSNOW_COLUMN_UNKNOWN")
  const OPERATOR_UNSUPPORTED := PlanRefusal("FSNOW_FILTER_OPERATOR_UNSUPPORTED")

  /** `values.get(i).cloned().unwrap_or_default()`. */
  function ValueAt(values: seq<string>, i: nat): string {
    if i < |values| then values[i] else ""
  }

  function BindEach(dtype: DtypeClass, values: seq<string>): seq<TypedBinding> {
    if values == [] then [] else [BindingFor(dtype, values[0])] + BindEach(dtype, values[1..])
  }

  function ShapeLeaf(leaf: LeafPredicate, columns: seq<ColumnEntry>, uni: Unicode): Result<Test, PlanRefusal> {
    match FindColumn(uni, leaf.column, columns)
    case None => Err(COLUMN_UNKNOWN)
    case Some(column) =>
      var values, name := ValueStrings(leaf.value), column.column;
      var first := BindingFor(column.dtype, ValueAt(values, 0));
      match OperatorNamed(leaf.op)
      case OpCompare(op) => Ok(Compare(name, op, first))
      case OpBetween => Ok(Between(name, first, BindingFor(column.dtype, ValueAt(values, 1))))
      case OpIn => Ok(InList(name, BindEach(column.dtype, values)))
      case OpIsNull => Ok(IsNull(name, false))
      case OpIsNotNull => Ok(IsNull(name, true))
      case OpContains => Ok(Contains(name, first))
      case OpUnsupported => Err(OPERATOR_UNSUPPORTED)
  }

  function Concat(cs: seq<Clause>): Clause
    requires cs != []
  {
    if |cs| == 1 then cs[0] else Append(cs[0], Concat(cs[1..]))
  }

  function AlternativesOf(cs: seq<Clause>): Alternatives
    requires cs != []
  {
    if |cs| == 1 then Last(cs[0]) else More(cs[0], AlternativesOf(cs[1..]))
  }

  /** A part, if any, ANDed before the parts that follow it. */
  function Before(f: Option<Factor>, c: Option<Clause>): Option<Clause> {
    if f.None? then c else if c.None? then Some(One(f.value)) else Some(Conj(f.value, c.value))
  }

  function AllPart(cs: seq<Clause>): Option<Factor> {
    if cs == [] then None else Some(All(Concat(cs)))
  }

  function AnyPart(cs: seq<Clause>): Option<Factor> {
    if cs == [] then None else Some(Any(AlternativesOf(cs)))
  }

  function NotPart(c: Option<Clause>): Option<Factor> {
    if c.None? then None else Some(Negated(c.value))
  }

  /** The parts of a compound whose children have compiled. */
  function CompoundClause(conj: seq<Clause>, disj: seq<Clause>, neg: Option<Clause>): Option<Clause> {
    Before(AllPart(conj), Before(AnyPart(disj), Before(NotPart(neg), None)))
  }

  /** `Ok(None)`: the tree printed nothing. */
  function Shape(p: PredicateAst, columns: seq<ColumnEntry>, uni: Unicode): Result<Option<Clause>, PlanRefusal>
    decreases p, 1
  {
    match p
    case Single(leaf) =>
      (match ShapeLeaf(leaf, columns, uni)
       case Err(e) => Err(e)
       case Ok(t) => Ok(Some(One(Leaf(t)))))
    case Compound(conj, disj, neg) =>
      match ShapeMany(conj, columns, uni)
      case Err(e) => Err(e)
      case Ok(cs) =>
        match ShapeMany(disj, columns, uni)
        case Err(e) => Err(e)
        case Ok(ds) =>
          match (match neg case None => Ok(None) case Some(n) => Shape(n, columns, uni))
          case Err(e) => Err(e)
          case Ok(n) => Ok(CompoundClause(cs, ds, n))
  }

  /** The children that print something, in order; the first refusal wins. */
  function ShapeMany(ps: seq<PredicateAst>, columns: seq<ColumnEntry>, uni: Unicode)
    : Result<seq<Clause>, PlanRefusal>
    decreases ps, 0
  {
    if ps == [] then Ok([])
    else
      match Shape(ps[0], columns, uni)
      case Err(e) => Err(e)
      case Ok(first) =>
        match ShapeMany(ps[1..], columns, uni)
        case Err(e) => Err(e)
        case Ok(rest) => Ok((if first.None? then [] else [first.value]) + rest)
  }

  // ----- meaning -----

  lemma {:induction false} BindEachMeans(column: ColumnEntry, values: seq<string>, row: Row, server: Server)
    ensures EvalIn(row(column.column), BindEach(column.dtype, values), server)
         == DenoteAny(column, values, row, server)
  {
    if values != [] {
      BindEachMeans(column, values[1..], row, server);
      assert BindEach(column.dtype, values)[1..] == BindEach(column.dtype, values[1..]);
    }
  }

  lemma ComparisonMeans(cell: Option<string>, b: TypedBinding, server: Server)
    ensures forall op :: EvalComparison(op, cell, b, server) == DenoteComparison(op, cell, b, server)
  {
  }

  lemma BetweenMeans(cell: Option<string>, low: TypedBinding, high: TypedBinding, server: Server)
    ensures And3(EvalComparison(Ge, cell, low, server), EvalComparison(Le, cell, high, server))
         == And3(Not3(EvalComparison(Lt, cell, low, server)), Not3(EvalComparison(Gt, cell, high, server)))
  {
  }

  lemma ShapeLeafMeans(leaf: LeafPredicate, columns: seq<ColumnEntry>, uni: Unicode, row: Row, server: Server)
    requires ShapeLeaf(leaf, columns, uni).Ok?
    ensures EvalTest(ShapeLeaf(leaf, columns, uni).value, row, server) == DenoteLeaf(leaf, columns, uni, row, server)
  {
    hide OperatorNamed, EvalComparison, DenoteComparison, BindingFor, EvalPositive;
    var column := FindColumn(uni, leaf.column, columns).value;
    var cell, values := row(column.column), ValueStrings(leaf.value);
    var first, second := BindingFor(column.dtype, ValueAt(values, 0)), BindingFor(column.dtype, ValueAt(values, 1));
    ComparisonMeans(cell, first, server);
    BetweenMeans(cell, first, second, server);
    BindEachMeans(column, values, row, server);
  }

  lemma {:induction false} ConcatMeans(cs: seq<Clause>, row: Row, server: Server)
    requires cs != []
    ensures Eval(ClauseCond(Concat(cs)), row, server)
         == if |cs| == 1 then Eval(ClauseCond(cs[0]), row, server)
            else And3(Eval(ClauseCond(cs[0]), row, server), Eval(ClauseCond(Concat(cs[1..])), row, server))
  {
    if |cs| > 1 {
      EvalAppend(cs[0], Concat(cs[1..]), row, server);
    }
  }

  function ValueOf(c: Option<Clause>, row: Row, server: Server): Option<TV> {
    if c.None? then None else Some(Eval(ClauseCond(c.value), row, server))
  }

  function AllOf(cs: seq<Clause>): Option<Clause> {
    if cs == [] then None else Some(Concat(cs))
  }

  function ValueOfSome(cs: seq<Clause>, row: Row, server: Server): Option<TV> {
    if cs == [] then None else Some(Eval(AlternativesCond(AlternativesOf(cs)), row, server))
  }

  function NegatedValue(c: Option<Clause>, row: Row, server: Server): Option<TV> {
    if c.None? then None else Some(Not3(Eval(ClauseCond(c.value), row, server)))
  }

  lemma BeforeMeans(f: Option<Factor>, c: Option<Clause>, row: Row, server: Server)
    ensures ValueOf(Before(f, c), row, server)
         == Meet(if f.None? then None else Some(Eval(FactorCond(f.value), row, server)), ValueOf(c, row, server))
  {
  }

  lemma CompoundMeans(conj: seq<Clause>, disj: seq<Clause>, neg: Option<Clause>, row: Row, server: Server)
    ensures ValueOf(CompoundClause(conj, disj, neg), row, server)
         == Meet(ValueOf(AllOf(conj), row, server), Meet(ValueOfSome(disj, row, server), NegatedValue(neg, row, server)))
  {
    BeforeMeans(NotPart(neg), None, row, server);
    BeforeMeans(AnyPart(disj), Before(NotPart(neg), None), row, server);
    BeforeMeans(AllPart(conj), Before(AnyPart(disj), Before(NotPart(neg), None)), row, server);
  }

  /** Compilation preserves meaning: the printed shape's condition has, on every
      row, the value the tree denotes; a tree that denotes nothing prints nothing. */
  lemma {:induction false} ShapeMeans(p: PredicateAst, columns: seq<ColumnEntry>, uni: Unicode, row: Row, server: Server)
    requires Shape(p, columns, uni).Ok?
    ensures ValueOf(Shape(p, columns, uni).value, row, server) == Denote(p, columns, uni, row, server)
    decreases p, 1
  {
    match p {
      case Single(leaf) =>
        ShapeLeafMeans(leaf, columns, uni, row, server);
        var t := ShapeLeaf(leaf, columns, uni).value;
        assert ClauseCond(One(Leaf(t))) == Atom(t);
      case Compound(conj, disj, neg) =>
        ShapeManyMeans(conj, columns, uni, row, server);
        ShapeManyMeans(disj, columns, uni, row, server);
        if neg.Some? {
          ShapeMeans(neg.value, columns, uni, row, server);
        }
        var n := if neg.None? then None else Shape(neg.value, columns, uni).value;
        CompoundMeans(ShapeMany(conj, columns, uni).value, ShapeMany(disj, columns, uni).value, n, row, server);
    }
  }

  lemma {:induction false} ShapeManyMeans(ps: seq<PredicateAst>, columns: seq<ColumnEntry>, uni: Unicode,
                                          row: Row, server: Server)
    requires ShapeMany(ps, columns, uni).Ok?
    ensures ValueOf(AllOf(ShapeMany(ps, columns, uni).value), row, server) == DenoteAll(ps, columns, uni, row, server)
    ensures ValueOfSome(ShapeMany(ps, columns, uni).value, row, server) == DenoteSome(ps, columns, uni, row, server)
    decreases ps, 0
  {
    if ps != [] {
      ShapeMeans(ps[0], columns, uni, row, server);
      ShapeManyMeans(ps[1..], columns, uni, row, server);
      var first, rest := Shape(ps[0], columns, uni).value, ShapeMany(ps[1..], columns, uni).value;
      var cs := (if first.None? then [] else [first.value]) + rest;
      if first.Some? {
        assert cs[1..] == rest;
        ConcatMeans(cs, row, server);
      } else {
        assert cs == rest;
      }
    }
  }

  // ----- counting leaves -----

  lemma {:induction false} ShapePrintsLeaves(p: PredicateAst, columns: seq<ColumnEntry>, uni: Unicode)
    requires Shape(p, columns, uni).Ok?
    ensures Shape(p, columns, uni).value.Some? <==> LeafCount(p) > 0
    decreases p, 1
  {
    if p.Compound? {
      ShapeManyPrintsLeaves(p.conj, columns, uni);
      ShapeManyPrintsLeaves(p.disj, columns, uni);
      if p.neg.Some? {
        ShapePrintsLeaves(p.neg.value, columns, uni);
      }
    }
  }

  lemma {:induction false} ShapeManyPrintsLeaves(ps: seq<PredicateAst>, columns: seq<ColumnEntry>, uni: Unicode)
    requires ShapeMany(ps, columns, uni).Ok?
    ensures ShapeMany(ps, columns, uni).value != [] <==> LeafCounts(ps) > 0
    decreases ps, 0
  {
    if ps != [] {
      ShapePrintsLeaves(ps[0], columns, uni);
      ShapeManyPrintsLeaves(ps[1..], columns, uni);
    }
  }

  // ----- validation implies compilation -----

  /** A validated leaf compiles to a test that prints, with as many values as its
      operator reads: the default value is never used. */
  lemma ValidLeafCompiles(leaf: LeafPredicate, columns: seq<ColumnEntry>, uni: Unicode)
    requires LeafRefusals(leaf, columns, BuiltInOperators(), uni) == []
    ensures ShapeLeaf(leaf, columns, uni).Ok? && TestOk(ShapeLeaf(leaf, columns, uni).value)
    ensures ArityFits(OperatorNamed(leaf.op), |ValueStrings(leaf.value)|)
  {
    hide OperatorNamed, BuiltInOperators;
    var operator := FindOperator(leaf.op, BuiltInOperators());
    BuiltInsAreKnown(operator.value, ValueCount(leaf.value));
  }

  lemma {:induction false} ValidTreeCompiles(p: PredicateAst, columns: seq<ColumnEntry>, uni: Unicode)
    requires NodeRefusals(p, columns, BuiltInOperators(), uni) == []
    ensures Shape(p, columns, uni).Ok?
    ensures Shape(p, columns, uni).value.Some? ==> ClauseOk(Shape(p, columns, uni).value.value)
    decreases p, 1
  {
    match p {
      case Single(leaf) => ValidLeafCompiles(leaf, columns, uni);
      case Compound(conj, disj, neg) =>
        ValidTreesCompile(conj, columns, uni);
        ValidTreesCompile(disj, columns, uni);
        if neg.Some? {
          ValidTreeCompiles(neg.value, columns, uni);
        }
        var n := if neg.None? then None else Shape(neg.value, columns, uni).value;
        CompoundOk(ShapeMany(conj, columns, uni).value, ShapeMany(disj, columns, uni).value, n);
    }
  }

  lemma {:induction false} ValidTreesCompile(ps: seq<PredicateAst>, columns: seq<ColumnEntry>, uni: Unicode)
    requires ManyRefusals(ps, columns, BuiltInOperators(), uni) == []
    ensures ShapeMany(ps, columns, uni).Ok?
    ensures forall c :: c in ShapeMany(ps, columns, uni).value ==> ClauseOk(c)
    decreases ps, 0
  {
    if ps != [] {
      ValidTreeCompiles(ps[0], columns, uni);
      ValidTreesCompile(ps[1..], columns, uni);
    }
  }

  lemma {:induction false} AppendOk(c: Clause, d: Clause)
    requires ClauseOk(c) && ClauseOk(d)
    ensures ClauseOk(Append(c, d))
  {
    if c.Conj? {
      AppendOk(c.rest, d);
    }
  }

  lemma {:induction false} ConcatOk(cs: seq<Clause>)
    requires cs != [] && forall c :: c in cs ==> ClauseOk(c)
    ensures ClauseOk(Concat(cs)) && AlternativesOk(AlternativesOf(cs))
  {
    if |cs| > 1 {
      ConcatOk(cs[1..]);
      AppendOk(cs[0], Concat(cs[1..]));
    }
  }

  lemma BeforeOk(f: Option<Factor>, c: Option<Clause>)
    requires f.Some? ==> FactorOk(f.value)
    requires c.Some? ==> ClauseOk(c.value)
    ensures Before(f, c).Some? ==> ClauseOk(Before(f, c).value)
  {
  }

  lemma CompoundOk(conj: seq<Clause>, disj: seq<Clause>, neg: Option<Clause>)
    requires forall c :: c in conj ==> ClauseOk(c)
    requires forall c :: c in disj ==> ClauseOk(c)
    requires neg.Some? ==> ClauseOk(neg.value)
    ensures var c := CompoundClause(conj, disj, neg); c.Some? ==> ClauseOk(c.value)
  {
    if conj != [] {
      ConcatOk(conj);
    }
    if disj != [] {
      ConcatOk(disj);
    }
    BeforeOk(NotPart(neg), None);
    BeforeOk(AnyPart(disj), Before(NotPart(neg), None));
    BeforeOk(AllPart(conj), Before(AnyPart(disj), Before(NotPart(neg), None)));
  }
}
