// The dataset query planner: validation, text, bindings.
module Planner {
  import opened Prelude
  import opened CatalogModel
  import opened SqlText
  import opened SqlMeaning
  import opened Clauses
  import opened Predicates
  import opened Shapes
  import opened Compiler

  datatype Request = Request(
    datasetId: string,
    select: seq<string>,
    entity: Option<string>,
    from: Option<string>,
    to: Option<string>,
    asOf: Option<string>,
    filter: Option<PredicateAst>,
    limit: Option<nat>,
    exportMode: bool,
    confirmed: bool)

  datatype Pushdown = Pushdown(
    projectedColumns: nat, axisFilters: nat, predicateFilters: nat, allPredicatesPushedDown: bool)

  datatype QueryPlan = QueryPlan(sql: string, bindings: map<string, TypedBinding>, pushdown: Pushdown)

  /** The core's safety step: refuses some texts with some row cap. */
  type Guard = (string, nat) -> Option<PlanRefusal>

  const DATASET_UNKNOWN := PlanRefusal("FSNOW_DATASET_UNKNOWN")
  const AS_OF_UNSUPPORTED := PlanRefusal("FSNOW_AS_OF_UNSUPPORTED")
  const RESULT_TOO_LARGE := PlanRefusal("FSNOW_RESULT_TOO_LARGE")
  const DEFAULT_MAX_RESULT_ROWS := 10_000

  // ----- what is refused -----

  function ResolveFields(fields: seq<DatasetField>, columns: seq<ColumnEntry>, uni: Unicode): seq<ColumnEntry> {
    if fields == [] then []
    else
      (match FindColumn(uni, fields[0].column, columns) case None => [] case Some(c) => [c])
      + ResolveFields(fields[1..], columns, uni)
  }

  function ResolveSelect(select: seq<string>, columns: seq<ColumnEntry>, uni: Unicode): seq<ColumnEntry> {
    if select == [] then []
    else
      (match FindColumn(uni, select[0], columns) case None => [] case Some(c) => [c])
      + ResolveSelect(select[1..], columns, uni)
  }

  function SelectRefusals(select: seq<string>, columns: seq<ColumnEntry>, uni: Unicode): seq<PlanRefusal> {
    if select == [] then []
    else
      (if FindColumn(uni, select[0], columns).None? then [COLUMN_UNKNOWN] else [])
      + SelectRefusals(select[1..], columns, uni)
  }

  function Projection(m: DatasetManifest, columns: seq<ColumnEntry>, req: Request, uni: Unicode): seq<ColumnEntry> {
    if req.select != [] then ResolveSelect(req.select, columns, uni)
    else if ResolveFields(m.fields, columns, uni) == [] then columns
    else ResolveFields(m.fields, columns, uni)
  }

  function AxisColumn(m: DatasetManifest, columns: seq<ColumnEntry>, role: FieldRole, uni: Unicode): Option<ColumnEntry> {
    match FieldByRole(m.fields, role)
    case None => None
    case Some(field) => FindColumn(uni, field.column, columns)
  }

  function AxisRefusals(m: DatasetManifest, columns: seq<ColumnEntry>, req: Request, uni: Unicode): seq<PlanRefusal> {
    (if req.entity.Some? && AxisColumn(m, columns, EntityKey, uni).None? then [COLUMN_UNKNOWN] else [])
    + (if (req.from.Some? || req.to.Some?) && AxisColumn(m, columns, TimeIndex, uni).None?
       then [COLUMN_UNKNOWN] else [])
    + (if req.asOf.Some? && FieldByRole(m.fields, KnownAt).None? && FieldByRole(m.fields, TimeIndex).None?
       then [AS_OF_UNSUPPORTED] else [])
  }

  function PlanCode(code: RefusalCode): PlanRefusal {
    match code
    case ColumnUnknown => PlanRefusal("FSNOW_COLUMN_UNKNOWN")
    case OperatorUnknown => PlanRefusal("FSNOW_OPERATOR_UNKNOWN")
    case FilterOperatorDtype => PlanRefusal("FSNOW_FILTER_OPERATOR_DTYPE")
    case FilterArity => PlanRefusal("FSNOW_FILTER_ARITY")
  }

  function FilterRefusals(columns: seq<ColumnEntry>, operators: seq<OperatorEntry>, req: Request, uni: Unicode)
    : seq<PlanRefusal>
  {
    match req.filter
    case None => []
    case Some(p) =>
      var rs := NodeRefusals(p, columns, operators, uni);
      seq(|rs|, i requires 0 <= i < |rs| => PlanCode(rs[i].code))
  }

  function EffectiveLimit(m: DatasetManifest, req: Request): nat {
    match req.limit
    case None => m.defaultLimit
    case Some(n) => n
  }

  function RowRefusals(m: DatasetManifest, req: Request): seq<PlanRefusal> {
    var limit := EffectiveLimit(m, req);
    var cap :=
      if m.maxRowsWithoutExport < DEFAULT_MAX_RESULT_ROWS then m.maxRowsWithoutExport else DEFAULT_MAX_RESULT_ROWS;
    (if !req.exportMode && !req.confirmed && limit > cap then [RESULT_TOO_LARGE] else [])
    + (if limit > m.maxRowsWithoutExport && !req.exportMode then [RESULT_TOO_LARGE] else [])
  }

  function Refusals(m: DatasetManifest, columns: seq<ColumnEntry>, operators: seq<OperatorEntry>, req: Request, uni: Unicode)
    : seq<PlanRefusal>
  {
    SelectRefusals(req.select, columns, uni) + AxisRefusals(m, columns, req, uni)
    + FilterRefusals(columns, operators, req, uni) + RowRefusals(m, req)
  }

  // ----- what is printed -----

  function ColumnPieces(columns: seq<ColumnEntry>): seq<Piece> {
    if columns == [] then []
    else if |columns| == 1 then [Ident(columns[0].column)]
    else [Ident(columns[0].column), Sym(","), Space] + ColumnPieces(columns[1..])
  }

  function ObjectPieces(m: DatasetManifest): seq<Piece> {
    [Ident(m.database), Sym("."), Ident(m.schema), Sym("."), Ident(m.object_)]
  }

  function StampPieces(v: string): seq<Piece> {
    [Word(TIMESTAMP), Space, Sym("=>"), Space, Literal(v), Sym("::"), Word(TIMESTAMP_TZ)]
  }

  function AsOfPieces(asOf: Option<string>): seq<Piece> {
    match asOf
    case None => []
    case Some(v) => [Space, Word(AT)] + Bracketed(StampPieces(v))
  }

  function AxisTest(column: Option<ColumnEntry>, op: Comparison, value: Option<string>): seq<Test> {
    if column.None? || value.None? then []
    else [Compare(column.value.column, op, BindingFor(column.value.dtype, value.value))]
  }

  /** Entity, then from, then to. */
  function AxisTests(m: DatasetManifest, columns: seq<ColumnEntry>, req: Request, uni: Unicode): seq<Test> {
    var entity, time := AxisColumn(m, columns, EntityKey, uni), AxisColumn(m, columns, TimeIndex, uni);
    AxisTest(entity, Eq, req.entity) + AxisTest(time, Ge, req.from) + AxisTest(time, Le, req.to)
  }

  /** The WHERE clause: the axis tests, then the predicate. */
  function WhereClause(tests: seq<Test>, filter: Option<Clause>): Option<Clause> {
    if tests == [] then filter else Before(Some(Leaf(tests[0])), WhereClause(tests[1..], filter))
  }

  function WherePieces(where: Option<Clause>): seq<Piece> {
    match where
    case None => []
    case Some(c) => Spaced(WHERE) + ClausePieces(c)
  }

  function LimitBinding(limit: nat): TypedBinding {
    BindingFor(Number, Decimal(limit))
  }

  /** The pieces before the WHERE clause. */
  function FrontPieces(m: DatasetManifest, projection: seq<ColumnEntry>, asOf: Option<string>): seq<Piece> {
    [Word(SELECT), Space] + ColumnPieces(projection) + Spaced(FROM) + ObjectPieces(m) + AsOfPieces(asOf)
  }

  function PlanPieces(m: DatasetManifest, projection: seq<ColumnEntry>, asOf: Option<string>, where: Option<Clause>,
                      limit: nat): seq<Piece>
  {
    FrontPieces(m, projection, asOf) + WherePieces(where) + Spaced(LIMIT) + [Param(LimitBinding(limit))]
  }

  /** The filter's shape; no filter prints nothing. */
  function FilterShape(filter: Option<PredicateAst>, columns: seq<ColumnEntry>, uni: Unicode)
    : Result<Option<Clause>, PlanRefusal>
  {
    match filter
    case None => Ok(None)
    case Some(p) => Shape(p, columns, uni)
  }

  function FilterLeaves(filter: Option<PredicateAst>): nat {
    match filter
    case None => 0
    case Some(p) => LeafCount(p)
  }

  /** The planner's outcome. */
  function Plan(m: DatasetManifest, allColumns: seq<ColumnEntry>, operators: seq<OperatorEntry>, req: Request,
                uni: Unicode, guard: Guard): Result<QueryPlan, seq<PlanRefusal>>
  {
    var columns := DatasetColumns(m.id, allColumns);
    if m.id != req.datasetId then Err([DATASET_UNKNOWN])
    else if Refusals(m, columns, operators, req, uni) != [] then Err(Refusals(m, columns, operators, req, uni))
    else
      match FilterShape(req.filter, columns, uni)
      case Err(e) => Err([e])
      case Ok(filter) =>
        var projection, tests := Projection(m, columns, req, uni), AxisTests(m, columns, req, uni);
        var pieces := PlanPieces(m, projection, req.asOf, WhereClause(tests, filter), EffectiveLimit(m, req));
        match guard(RenderAll(pieces), EffectiveLimit(m, req))
        case Some(e) => Err([e])
        case None =>
          Ok(QueryPlan(RenderAll(pieces), Keyed(Params(pieces)),
                       Pushdown(|projection|, |tests|, FilterLeaves(req.filter), true)))
  }

  // ----- the text of each part -----

  function NamesText(columns: seq<ColumnEntry>): seq<string> {
    seq(|columns|, i requires 0 <= i < |columns| => QuoteIdentifier(columns[i].column))
  }

  lemma {:induction false} NoParams(ps: seq<Piece>)
    requires forall p :: p in ps ==> !p.Param?
    ensures Params(ps) == []
  {
    if ps != [] {
      NoParams(ps[1..]);
    }
  }

  lemma {:induction false} ColumnsHaveNoParams(columns: seq<ColumnEntry>)
    ensures Params(ColumnPieces(columns)) == []
  {
    if |columns| == 1 {
      OnePiece(Ident(columns[0].column));
    } else if |columns| > 1 {
      hide Params, Toks, RenderAll;
      ColumnsHaveNoParams(columns[1..]);
      ParamsConcat([Ident(columns[0].column), Sym(","), Space], ColumnPieces(columns[1..]));
      ThreePieces(Ident(columns[0].column), Sym(","), Space);
      OnePiece(Ident(columns[0].column));
      OnePiece(Sym(","));
      OnePiece(Space);
    }
  }

  lemma CommaText(name: string)
    ensures name + "," + " " == name + ", "
  {
    AppendAssociates(name, ",", " ");
    assert "," + " " == ", ";
  }

  lemma ColumnPiecesStep(columns: seq<ColumnEntry>)
    requires |columns| > 1
    ensures ColumnPieces(columns) == [Ident(columns[0].column), Sym(","), Space] + ColumnPieces(columns[1..])
    ensures NamesText(columns)[0] == QuoteIdentifier(columns[0].column)
    ensures NamesText(columns)[1..] == NamesText(columns[1..]) && |NamesText(columns)| > 1
  {
    hide QuoteIdentifier;
  }

  lemma TextOfName(name: string)
    ensures RenderAll([Ident(name), Sym(","), Space]) == QuoteIdentifier(name) + ", "
  {
    hide RenderAll, QuoteIdentifier;
    ThreePieces(Ident(name), Sym(","), Space);
    CommaText(QuoteIdentifier(name));
  }

  lemma {:induction false} TextOfColumns(columns: seq<ColumnEntry>)
    ensures RenderAll(ColumnPieces(columns)) == Join(NamesText(columns), ", ")
  {
    if |columns| == 1 {
      OnePiece(Ident(columns[0].column));
    } else if |columns| > 1 {
      hide *;
      TextOfColumns(columns[1..]);
      ColumnPiecesStep(columns);
      RenderConcat([Ident(columns[0].column), Sym(","), Space], ColumnPieces(columns[1..]));
      TextOfName(columns[0].column);
      JoinStep(NamesText(columns), ", ");
    }
  }

  lemma JoinStep(parts: seq<string>, sep: string)
    requires |parts| > 1
    ensures Join(parts, sep) == parts[0] + sep + Join(parts[1..], sep)
  {
  }

  lemma ObjectText(a: string, b: string, c: string)
    ensures a + "." + b + ("." + c) == a + "." + b + "." + c
  {
    AppendAssociates(a + "." + b, ".", c);
  }

  lemma TextOfObject(m: DatasetManifest)
    ensures RenderAll(ObjectPieces(m)) == QuoteQualifiedObject(m.database, m.schema, m.object_)
  {
    var x, y := [Ident(m.database), Sym("."), Ident(m.schema)], [Sym("."), Ident(m.object_)];
    assert ObjectPieces(m) == x + y;
    hide RenderAll, QuoteIdentifier, ObjectPieces;
    RenderConcat(x, y);
    ThreePieces(Ident(m.database), Sym("."), Ident(m.schema));
    TwoPieces(Sym("."), Ident(m.object_));
    ObjectText(QuoteIdentifier(m.database), QuoteIdentifier(m.schema), QuoteIdentifier(m.object_));
  }

  function AsOfText(asOf: Option<string>): string {
    match asOf
    case None => ""
    case Some(v) => " AT(TIMESTAMP => " + ("'" + EscapeLiteral(v) + "'::TIMESTAMP_TZ") + ")"
  }

  lemma StampLiterals()
    ensures "TIMESTAMP" + " " + ("=>" + " ") == "TIMESTAMP => "
    ensures "'" + "::" + "TIMESTAMP_TZ" == "'::TIMESTAMP_TZ"
  {
  }

  lemma CastText(quoted: string)
    ensures quoted + "'" + "::" + "TIMESTAMP_TZ" == quoted + "'::TIMESTAMP_TZ"
  {
    StampLiterals();
    AppendAssociates(quoted, "'", "::");
    AppendAssociates(quoted, "'" + "::", "TIMESTAMP_TZ");
  }

  lemma TextOfCast(v: string)
    ensures RenderAll([Literal(v), Sym("::"), Word(TIMESTAMP_TZ)]) == "'" + EscapeLiteral(v) + "'::TIMESTAMP_TZ"
  {
    hide RenderAll, EscapeLiteral;
    ThreePieces(Literal(v), Sym("::"), Word(TIMESTAMP_TZ));
    CastText("'" + EscapeLiteral(v));
  }

  lemma TextOfStampWord()
    ensures RenderAll([Word(TIMESTAMP), Space] + [Sym("=>"), Space]) == "TIMESTAMP => "
  {
    hide RenderAll;
    RenderConcat([Word(TIMESTAMP), Space], [Sym("=>"), Space]);
    TwoPieces(Word(TIMESTAMP), Space);
    TwoPieces(Sym("=>"), Space);
    StampLiterals();
  }

  lemma TextOfStamp(v: string)
    ensures RenderAll(StampPieces(v)) == "TIMESTAMP => " + ("'" + EscapeLiteral(v) + "'::TIMESTAMP_TZ")
  {
    var x, y, z := [Word(TIMESTAMP), Space], [Sym("=>"), Space], [Literal(v), Sym("::"), Word(TIMESTAMP_TZ)];
    assert StampPieces(v) == x + y + z;
    hide *;
    RenderConcat(x + y, z);
    TextOfStampWord();
    TextOfCast(v);
  }

  lemma TextOfAsOf(asOf: Option<string>)
    ensures RenderAll(AsOfPieces(asOf)) == AsOfText(asOf)
  {
    if asOf.Some? {
      TextOfStamp(asOf.value);
      hide RenderAll, EscapeLiteral, StampPieces;
      var at, inner := [Space, Word(AT)], StampPieces(asOf.value);
      TextBracketed(inner);
      TwoPieces(Space, Word(AT));
      RenderConcat(at, Bracketed(inner));
      AtText("'" + EscapeLiteral(asOf.value) + "'::TIMESTAMP_TZ");
    }
  }

  lemma AtText(stamp: string)
    ensures " " + "AT" + ("(" + ("TIMESTAMP => " + stamp) + ")") == " AT(TIMESTAMP => " + stamp + ")"
  {
    Regroup3(" " + "AT", "(", "TIMESTAMP => ", stamp, ")");
    assert " " + "AT" + "(" + "TIMESTAMP => " == " AT(TIMESTAMP => ";
  }

  lemma Regroup3<T>(a: seq<T>, b: seq<T>, c: seq<T>, x: seq<T>, e: seq<T>)
    ensures a + (b + (c + x) + e) == (a + b + c) + x + e
  {
  }

  /** The clause texts that the planner joins by AND. */
  function TestTexts(tests: seq<Test>): seq<string> {
    seq(|tests|, i requires 0 <= i < |tests| => RenderAll(TestPieces(tests[i])))
  }

  function TestsParams(tests: seq<Test>): seq<TypedBinding> {
    if tests == [] then [] else TestParams(tests[0]) + TestsParams(tests[1..])
  }

  lemma {:induction false} TestsConcat(a: seq<Test>, b: seq<Test>)
    ensures TestTexts(a + b) == TestTexts(a) + TestTexts(b)
    ensures TestsParams(a + b) == TestsParams(a) + TestsParams(b)
  {
    if a == [] {
      assert a + b == b;
    } else {
      assert (a + b)[1..] == a[1..] + b;
      TestsConcat(a[1..], b);
    }
  }

  lemma {:induction false} WhereJoins(tests: seq<Test>, filter: Option<Clause>)
    ensures JoinsTo(TestTexts(tests) + (if filter.None? then [] else [ClauseText(filter.value)]), WhereClause(tests, filter))
    ensures OptionParams(WhereClause(tests, filter)) == TestsParams(tests) + OptionParams(filter)
  {
    var last := if filter.None? then [] else [ClauseText(filter.value)];
    if tests == [] {
      assert TestTexts(tests) + last == last;
      assert [] + OptionParams(filter) == OptionParams(filter);
    } else {
      var more, rest := TestTexts(tests[1..]) + last, WhereClause(tests[1..], filter);
      var part := Some(Leaf(tests[0]));
      assert TestTexts(tests) == PartText(part) + TestTexts(tests[1..]);
      assert WhereClause(tests, filter) == Before(part, rest);
      assert TestsParams(tests) == TestParams(tests[0]) + TestsParams(tests[1..]);
      assert PartParams(part) == TestParams(tests[0]) by {
        PiecesOfTest(tests[0]);
      }
      WhereJoins(tests[1..], filter);
      hide *;
      AppendAssociates(PartText(part), TestTexts(tests[1..]), last);
      AppendAssociates(TestParams(tests[0]), TestsParams(tests[1..]), OptionParams(filter));
      BeforeText(part, rest, more);
    }
  }

  function WhereText(where: Option<Clause>): string {
    if where.None? then "" else " WHERE " + ClauseText(where.value)
  }

  lemma TextOfWhere(where: Option<Clause>)
    ensures RenderAll(WherePieces(where)) == WhereText(where)
    ensures Params(WherePieces(where)) == OptionParams(where)
  {
    if where.Some? {
      hide RenderAll, Params;
      RenderConcat(Spaced(WHERE), ClausePieces(where.value));
      ParamsConcat(Spaced(WHERE), ClausePieces(where.value));
      PiecesOfKeyword(WHERE);
      assert " " + "WHERE" + " " == " WHERE ";
      assert [] + OptionParams(where) == OptionParams(where);
    }
  }

  lemma TextOfFront(m: DatasetManifest, projection: seq<ColumnEntry>, asOf: Option<string>)
    ensures RenderAll(FrontPieces(m, projection, asOf))
         == "SELECT " + Join(NamesText(projection), ", ") + " FROM "
            + QuoteQualifiedObject(m.database, m.schema, m.object_) + AsOfText(asOf)
  {
    var a, b, c, d := [Word(SELECT), Space], ColumnPieces(projection), ObjectPieces(m), AsOfPieces(asOf);
    hide RenderAll, QuoteQualifiedObject, Join, AsOfText, ColumnPieces, ObjectPieces, AsOfPieces;
    TwoPieces(Word(SELECT), Space);
    TextOfColumns(projection);
    TextOfObject(m);
    TextOfAsOf(asOf);
    RenderConcat(a, b);
    TextAround(a + b, FROM, c);
    RenderConcat(a + b + Spaced(FROM) + c, d);
    assert "SELECT" + " " == "SELECT ";
    assert " " + "FROM" + " " == " FROM ";
  }

  lemma ObjectHasNoParams(m: DatasetManifest)
    ensures Params(ObjectPieces(m)) == []
  {
    NoParams(ObjectPieces(m));
  }

  lemma AsOfHasNoParams(asOf: Option<string>)
    ensures Params(AsOfPieces(asOf)) == []
  {
    NoParams(AsOfPieces(asOf));
  }

  lemma FrontHasNoParams(m: DatasetManifest, projection: seq<ColumnEntry>, asOf: Option<string>)
    ensures Params(FrontPieces(m, projection, asOf)) == []
  {
    var a, b, c, d := [Word(SELECT), Space], ColumnPieces(projection), ObjectPieces(m), AsOfPieces(asOf);
    assert FrontPieces(m, projection, asOf) == a + b + Spaced(FROM) + c + d;
    NoParams(a);
    hide *;
    ColumnsHaveNoParams(projection);
    ObjectHasNoParams(m);
    AsOfHasNoParams(asOf);
    ParamsConcat(a, b);
    PiecesAround(a + b, FROM, c);
    ParamsConcat(a + b + Spaced(FROM) + c, d);
  }

  lemma TextOfPlan(m: DatasetManifest, projection: seq<ColumnEntry>, asOf: Option<string>, where: Option<Clause>,
                   limit: nat)
    ensures RenderAll(PlanPieces(m, projection, asOf, where, limit))
         == RenderAll(FrontPieces(m, projection, asOf)) + WhereText(where) + " LIMIT " + "?"
    ensures Params(PlanPieces(m, projection, asOf, where, limit)) == OptionParams(where) + [LimitBinding(limit)]
  {
    hide RenderAll, Params, WhereText, OptionParams, LimitBinding, FrontPieces;
    var front, e, last := FrontPieces(m, projection, asOf), WherePieces(where), [Param(LimitBinding(limit))];
    TextOfWhere(where);
    OnePiece(last[0]);
    FrontHasNoParams(m, projection, asOf);
    RenderConcat(front, e);
    ParamsConcat(front, e);
    TextAround(front + e, LIMIT, last);
    PiecesAround(front + e, LIMIT, last);
    assert [] + OptionParams(where) == OptionParams(where);
    assert " " + "LIMIT" + " " == " LIMIT ";
  }
}
