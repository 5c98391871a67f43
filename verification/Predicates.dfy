// The predicate tree, its validation against the catalogs, and its meaning.
module Predicates {
  import opened Prelude
  import opened CatalogModel
  import opened SqlText
  import opened SqlMeaning

  /** A JSON value, as the text `value_to_string` gives it; an array as its
      elements' texts. */
  datatype Value = Scalar(text: string) | List(items: seq<string>)

  datatype PredicateAst =
    | Compound(conj: seq<PredicateAst>, disj: seq<PredicateAst>, neg: Option<PredicateAst>)
    | Single(leaf: LeafPredicate)

  datatype LeafPredicate = LeafPredicate(column: string, op: string, value: Option<Value>)

  // ----- operators -----

  datatype Arity = Exact(count: nat) | Variadic(min: nat, max: nat)

  datatype OperatorEntry = OperatorEntry(id: string, arity: Arity, accepted: set<DtypeClass>)

  predicate Accepts(arity: Arity, count: nat) {
    match arity
    case Exact(expected) => count == expected
    case Variadic(min, max) => min <= count <= max
  }

  const SCALAR: set<DtypeClass> := {StringClass, Number, Boolean, Date, Time, Timestamp, Binary}
  const ORDERED: set<DtypeClass> := {Number, Date, Time, Timestamp}

  function BuiltInOperators(): seq<OperatorEntry> {
    [ OperatorEntry("eq", Exact(1), SCALAR),
      OperatorEntry("neq", Exact(1), SCALAR),
      OperatorEntry("lt", Exact(1), ORDERED),
      OperatorEntry("lte", Exact(1), ORDERED),
      OperatorEntry("gt", Exact(1), ORDERED),
      OperatorEntry("gte", Exact(1), ORDERED),
      OperatorEntry("between", Exact(2), ORDERED),
      OperatorEntry("in", Variadic(1, 100), SCALAR),
      OperatorEntry("is_null", Exact(0), SCALAR + {Variant, UnknownClass}),
      OperatorEntry("is_not_null", Exact(0), SCALAR + {Variant, UnknownClass}),
      OperatorEntry("contains", Exact(1), {StringClass}) ]
  }

  /** The operators the SQL compiler knows, by their catalog ids. */
  datatype Operator =
    | OpCompare(comparison: Comparison) | OpBetween | OpIn | OpIsNull | OpIsNotNull | OpContains | OpUnsupported

  function OperatorNamed(id: string): Operator {
    match id
    case "eq" => OpCompare(Eq)
    case "neq" => OpCompare(Ne)
    case "lt" => OpCompare(Lt)
    case "lte" => OpCompare(Le)
    case "gt" => OpCompare(Gt)
    case "gte" => OpCompare(Ge)
    case "between" => OpBetween
    case "in" => OpIn
    case "is_null" => OpIsNull
    case "is_not_null" => OpIsNotNull
    case "contains" => OpContains
    case _ => OpUnsupported
  }

  /** How many values each operator of the compiler needs. */
  predicate ArityFits(op: Operator, count: nat) {
    match op
    case OpCompare(_) => count == 1
    case OpBetween => count == 2
    case OpIn => 1 <= count <= 100
    case OpIsNull => count == 0
    case OpIsNotNull => count == 0
    case OpContains => count == 1
    case OpUnsupported => false
  }

  /** Every built-in operator is one the compiler knows, with the arity it needs. */
  lemma BuiltInsAreKnown(entry: OperatorEntry, count: nat)
    requires entry in BuiltInOperators()
    ensures OperatorNamed(entry.id) != OpUnsupported
    ensures Accepts(entry.arity, count) <==> ArityFits(OperatorNamed(entry.id), count)
  {
    hide OperatorNamed, BuiltInOperators;
    var i :| 0 <= i < |BuiltInOperators()| && BuiltInOperators()[i] == entry;
    BuiltInAt(i);
    if entry.arity == Exact(1) {
      OneValue(entry.id);
    } else {
      OtherValues();
    }
  }

  predicate NamesOneValue(id: string) {
    id == "eq" || id == "neq" || id == "lt" || id == "lte" || id == "gt" || id == "gte" || id == "contains"
  }

  lemma OneValue(id: string)
    requires NamesOneValue(id)
    ensures OperatorNamed(id).OpCompare? || OperatorNamed(id).OpContains?
  {
  }

  lemma OtherValues()
    ensures OperatorNamed("between") == OpBetween && OperatorNamed("in") == OpIn
    ensures OperatorNamed("is_null") == OpIsNull && OperatorNamed("is_not_null") == OpIsNotNull
  {
  }

  /** Every entry's id and arity. */
  lemma BuiltInAt(i: nat)
    requires i < |BuiltInOperators()|
    ensures var e := BuiltInOperators()[i];
      || (NamesOneValue(e.id) && e.arity == Exact(1))
      || (e.id == "between" && e.arity == Exact(2))
      || (e.id == "in" && e.arity == Variadic(1, 100))
      || (e.id == "is_null" && e.arity == Exact(0))
      || (e.id == "is_not_null" && e.arity == Exact(0))
  {
    assert i == 0 || i == 1 || i == 2 || i == 3 || i == 4 || i == 5 || i == 6 || i == 7 || i == 8 || i == 9 || i == 10;
  }

  function FindOperator(id: string, operators: seq<OperatorEntry>): (r: Option<OperatorEntry>)
    ensures r.Some? ==> r.value in operators && r.value.id == id
  {
    if operators == [] then None
    else if operators[0].id == id then Some(operators[0])
    else FindOperator(id, operators[1..])
  }

  function ValueStrings(value: Option<Value>): seq<string> {
    match value
    case None => []
    case Some(List(items)) => items
    case Some(Scalar(text)) => [text]
  }

  function ValueCount(value: Option<Value>): (n: nat)
    ensures n == |ValueStrings(value)|
  {
    match value
    case None => 0
    case Some(List(items)) => |items|
    case Some(Scalar(_)) => 1
  }

  // ----- validation -----

  datatype RefusalCode = ColumnUnknown | OperatorUnknown | FilterOperatorDtype | FilterArity

  datatype PredicateRefusal = PredicateRefusal(code: RefusalCode, column: string, operator: string)

  function LeafRefusals(leaf: LeafPredicate, columns: seq<ColumnEntry>, operators: seq<OperatorEntry>, uni: Unicode)
    : seq<PredicateRefusal>
  {
    var column, operator := FindColumn(uni, leaf.column, columns), FindOperator(leaf.op, operators);
    if column.None? || operator.None? then
      (if column.None? then [PredicateRefusal(ColumnUnknown, leaf.column, leaf.op)] else [])
      + (if operator.None? then [PredicateRefusal(OperatorUnknown, leaf.column, leaf.op)] else [])
    else
      (if Accepts(operator.value.arity, ValueCount(leaf.value)) then []
       else [PredicateRefusal(FilterArity, column.value.column, operator.value.id)])
      + (if column.value.dtype in operator.value.accepted then []
         else [PredicateRefusal(FilterOperatorDtype, column.value.column, operator.value.id)])
  }

  function NodeRefusals(p: PredicateAst, columns: seq<ColumnEntry>, operators: seq<OperatorEntry>, uni: Unicode)
    : seq<PredicateRefusal>
    decreases p, 1
  {
    match p
    case Single(leaf) => LeafRefusals(leaf, columns, operators, uni)
    case Compound(conj, disj, neg) =>
      ManyRefusals(conj, columns, operators, uni) + ManyRefusals(disj, columns, operators, uni)
      + match neg case None => [] case Some(n) => NodeRefusals(n, columns, operators, uni)
  }

  function ManyRefusals(ps: seq<PredicateAst>, columns: seq<ColumnEntry>, operators: seq<OperatorEntry>, uni: Unicode)
    : seq<PredicateRefusal>
    decreases ps, 0
  {
    if ps == [] then []
    else NodeRefusals(ps[0], columns, operators, uni) + ManyRefusals(ps[1..], columns, operators, uni)
  }

  method ValidateLeaf(leaf: LeafPredicate, columns: seq<ColumnEntry>, operators: seq<OperatorEntry>, uni: Unicode,
                      refusals: seq<PredicateRefusal>)
    returns (out: seq<PredicateRefusal>)
    ensures out == refusals + LeafRefusals(leaf, columns, operators, uni)
  {
    out := refusals;
    var column := FindColumn(uni, leaf.column, columns);
    var operator := FindOperator(leaf.op, operators);
    if column.None? {
      out := out + [PredicateRefusal(ColumnUnknown, leaf.column, leaf.op)];
    }
    if operator.None? {
      out := out + [PredicateRefusal(OperatorUnknown, leaf.column, leaf.op)];
    }
    if column.None? || operator.None? {
      return;
    }
    if !Accepts(operator.value.arity, ValueCount(leaf.value)) {
      out := out + [PredicateRefusal(FilterArity, column.value.column, operator.value.id)];
    }
    if column.value.dtype !in operator.value.accepted {
      out := out + [PredicateRefusal(FilterOperatorDtype, column.value.column, operator.value.id)];
    }
  }

  method ValidateNode(p: PredicateAst, columns: seq<ColumnEntry>, operators: seq<OperatorEntry>, uni: Unicode,
                      refusals: seq<PredicateRefusal>)
    returns (out: seq<PredicateRefusal>)
    ensures out == refusals + NodeRefusals(p, columns, operators, uni)
    decreases p, 1
  {
    hide LeafRefusals;
    match p {
      case Single(leaf) => out := ValidateLeaf(leaf, columns, operators, uni, refusals);
      case Compound(conj, disj, neg) =>
        hide ManyRefusals;
        out := ValidateMany(conj, columns, operators, uni, refusals);
        out := ValidateMany(disj, columns, operators, uni, out);
        if neg.Some? {
          out := ValidateNode(neg.value, columns, operators, uni, out);
        }
    }
  }

  /** The loop over one child list. */
  method ValidateMany(ps: seq<PredicateAst>, columns: seq<ColumnEntry>, operators: seq<OperatorEntry>, uni: Unicode,
                      refusals: seq<PredicateRefusal>)
    returns (out: seq<PredicateRefusal>)
    ensures out == refusals + ManyRefusals(ps, columns, operators, uni)
    decreases ps, 0
  {
    out := refusals;
    for i := 0 to |ps|
      invariant out + ManyRefusals(ps[i..], columns, operators, uni)
             == refusals + ManyRefusals(ps, columns, operators, uni)
    {
      assert ps[i..][0] == ps[i] && ps[i..][1..] == ps[i + 1..];
      ghost var before := out;
      out := ValidateNode(ps[i], columns, operators, uni, out);
      AppendAssociates(before, NodeRefusals(ps[i], columns, operators, uni),
                       ManyRefusals(ps[i + 1..], columns, operators, uni));
    }
  }

  // ----- leaves -----

  function LeafCount(p: PredicateAst): nat
    decreases p, 1
  {
    match p
    case Single(_) => 1
    case Compound(conj, disj, neg) =>
      LeafCounts(conj) + LeafCounts(disj) + match neg case None => 0 case Some(n) => LeafCount(n)
  }

  function LeafCounts(ps: seq<PredicateAst>): nat
    decreases ps, 0
  {
    if ps == [] then 0 else LeafCount(ps[0]) + LeafCounts(ps[1..])
  }

  // ----- bindings -----

  predicate AllDigits(s: string) {
    s != [] && forall i :: 0 <= i < |s| ==> IsDigit(s[i])
  }

  predicate IsIntegerLiteral(value: string) {
    AllDigits(if value != [] && value[0] == '-' then value[1..] else value)
  }

  function SqlApiBindingType(dtype: DtypeClass, value: string): string {
    if dtype == Number && IsIntegerLiteral(value) then "FIXED"
    else if dtype == Boolean && AsciiLower(value) in ["true", "false"] then "BOOLEAN"
    else "TEXT"
  }

  /** What `push_binding` stores for a value compared with a column of class `dtype`. */
  function BindingFor(dtype: DtypeClass, value: string): TypedBinding {
    var kind := SqlApiBindingType(dtype, value);
    TypedBinding(kind, if kind == "BOOLEAN" then AsciiLower(value) else value)
  }

  // ----- the meaning of a tree on one row -----

  function DenoteAny(column: ColumnEntry, values: seq<string>, row: Row, server: Server): TV {
    if values == [] then False
    else Or3(EvalComparison(Eq, row(column.column), BindingFor(column.dtype, values[0]), server),
             DenoteAny(column, values[1..], row, server))
  }

  /** The six comparisons in terms of equal, less and greater. */
  function DenoteComparison(op: Comparison, cell: Option<string>, b: TypedBinding, server: Server): TV {
    match op
    case Ne => Not3(EvalComparison(Eq, cell, b, server))
    case Le => Or3(EvalComparison(Lt, cell, b, server), EvalComparison(Eq, cell, b, server))
    case Ge => Or3(EvalComparison(Gt, cell, b, server), EvalComparison(Eq, cell, b, server))
    case _ => EvalComparison(op, cell, b, server)
  }

  /** One leaf: its operator applied to the cell of the column it resolves to. */
  function DenoteLeaf(leaf: LeafPredicate, columns: seq<ColumnEntry>, uni: Unicode, row: Row, server: Server): TV {
    match FindColumn(uni, leaf.column, columns)
    case None => Unknown
    case Some(column) =>
      var cell, values := row(column.column), ValueStrings(leaf.value);
      var arg := (i: nat) => BindingFor(column.dtype, if i < |values| then values[i] else "");
      match OperatorNamed(leaf.op)
      case OpCompare(op) => DenoteComparison(op, cell, arg(0), server)
      case OpBetween =>
        And3(Not3(EvalComparison(Lt, cell, arg(0), server)), Not3(EvalComparison(Gt, cell, arg(1), server)))
      case OpIn => DenoteAny(column, values, row, server)
      case OpIsNull => Known(cell.None?)
      case OpIsNotNull => Known(cell.Some?)
      case OpContains => EvalPositive(cell, arg(0), server)
      case OpUnsupported => Unknown
  }

  function Meet(a: Option<TV>, b: Option<TV>): Option<TV> {
    if a.None? then b else if b.None? then a else Some(And3(a.value, b.value))
  }

  function Union3(a: Option<TV>, b: Option<TV>): Option<TV> {
    if a.None? then b else if b.None? then a else Some(Or3(a.value, b.value))
  }

  /** `None` for a tree with no leaf: it contributes nothing. */
  function Denote(p: PredicateAst, columns: seq<ColumnEntry>, uni: Unicode, row: Row, server: Server): Option<TV>
    decreases p, 1
  {
    match p
    case Single(leaf) => Some(DenoteLeaf(leaf, columns, uni, row, server))
    case Compound(conj, disj, neg) =>
      var negated :=
        match neg
        case None => None
        case Some(n) =>
          match Denote(n, columns, uni, row, server)
          case None => None
          case Some(v) => Some(Not3(v));
      Meet(DenoteAll(conj, columns, uni, row, server), Meet(DenoteSome(disj, columns, uni, row, server), negated))
  }

  function DenoteAll(ps: seq<PredicateAst>, columns: seq<ColumnEntry>, uni: Unicode, row: Row, server: Server)
    : Option<TV>
    decreases ps, 0
  {
    if ps == [] then None
    else Meet(Denote(ps[0], columns, uni, row, server), DenoteAll(ps[1..], columns, uni, row, server))
  }

  function DenoteSome(ps: seq<PredicateAst>, columns: seq<ColumnEntry>, uni: Unicode, row: Row, server: Server)
    : Option<TV>
    decreases ps, 0
  {
    if ps == [] then None
    else Union3(Denote(ps[0], columns, uni, row, server), DenoteSome(ps[1..], columns, uni, row, server))
  }
}
