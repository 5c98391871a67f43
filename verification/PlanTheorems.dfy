// What every successful dataset plan satisfies.
module PlanTheorems {
  import opened Prelude
  import opened CatalogModel
  import opened SqlText
  import opened SqlScanner
  import opened SqlMeaning
  import opened Clauses
  import opened Predicates
  import opened Shapes
  import opened Compiler
  import opened Planner

  // ----- planned text is a chain of pieces -----

  lemma {:induction false} ColumnsChained(columns: seq<ColumnEntry>)
    ensures Chained(ColumnPieces(columns))
    ensures columns != [] ==> Closed(ColumnPieces(columns))
  {
    if |columns| > 1 {
      ColumnsChained(columns[1..]);
      ChainedConcat([Ident(columns[0].column), Sym(","), Space], ColumnPieces(columns[1..]));
    }
  }

  lemma ClosedAsOf(v: string)
    ensures Closed(AsOfPieces(Some(v)))
  {
    assert Closed(StampPieces(v));
    ClosedBracketed(StampPieces(v));
    ChainedConcat([Space, Word(AT)], Bracketed(StampPieces(v)));
  }

  lemma ClosedConcat(a: seq<Piece>, b: seq<Piece>)
    requires Closed(a) && Closed(b) && Fits(a[|a| - 1], b[0])
    ensures Closed(a + b)
  {
    ChainedConcat(a, b);
  }

  lemma ClosedSelect(projection: seq<ColumnEntry>)
    ensures Closed([Word(SELECT), Space] + ColumnPieces(projection))
  {
    var select := [Word(SELECT), Space];
    ColumnsChained(projection);
    hide ColumnPieces;
    if projection == [] {
      NoColumnPieces();
      assert select + [] == select;
    } else {
      ClosedConcat(select, ColumnPieces(projection));
    }
  }

  lemma NoColumnPieces()
    ensures ColumnPieces([]) == []
  {
  }

  lemma ClosedObject(m: DatasetManifest)
    ensures Closed(ObjectPieces(m))
  {
  }

  lemma FrontIs(m: DatasetManifest, projection: seq<ColumnEntry>, asOf: Option<string>)
    ensures FrontPieces(m, projection, asOf)
         == [Word(SELECT), Space] + ColumnPieces(projection) + Spaced(FROM) + ObjectPieces(m) + AsOfPieces(asOf)
    ensures asOf.None? ==> AsOfPieces(asOf) == []
    ensures asOf.Some? ==> AsOfPieces(asOf) != [] && AsOfPieces(asOf)[0] == Space
  {
    hide ColumnPieces, ObjectPieces, StampPieces;
  }

  lemma SpaceFits(p: Piece)
    ensures Fits(p, Space)
  {
  }

  lemma FrontChained(m: DatasetManifest, projection: seq<ColumnEntry>, asOf: Option<string>)
    ensures Closed(FrontPieces(m, projection, asOf))
  {
    hide *;
    var select := [Word(SELECT), Space] + ColumnPieces(projection);
    var all := select + Spaced(FROM) + ObjectPieces(m);
    FrontIs(m, projection, asOf);
    ClosedSelect(projection);
    ClosedObject(m);
    ClosedKeyword(select, FROM, ObjectPieces(m));
    if asOf.Some? {
      ClosedAsOf(asOf.value);
      NotEmpty(all);
      SpaceFits(all[|all| - 1]);
      ClosedConcat(all, AsOfPieces(asOf));
    } else {
      assert all + [] == all;
    }
  }

  lemma NotEmpty(ps: seq<Piece>)
    requires Closed(ps)
    ensures ps != []
  {
  }

  lemma PlanChained(m: DatasetManifest, projection: seq<ColumnEntry>, asOf: Option<string>, where: Option<Clause>,
                    limit: nat)
    ensures Chained(PlanPieces(m, projection, asOf, where, limit))
  {
    var front, last := FrontPieces(m, projection, asOf), [Param(LimitBinding(limit))];
    assert PlanPieces(m, projection, asOf, where, limit) == front + WherePieces(where) + Spaced(LIMIT) + last;
    assert Closed(last);
    FrontChained(m, projection, asOf);
    ClosedWithWhere(front, where);
    hide FrontPieces, WherePieces, Spaced, LimitBinding;
    ClosedKeyword(front + WherePieces(where), LIMIT, last);
  }

  lemma ClosedWithWhere(front: seq<Piece>, where: Option<Clause>)
    requires Closed(front)
    ensures Closed(front + WherePieces(where))
  {
    hide Closed, ClausePieces;
    if where.Some? {
      ClosedClause(where.value);
      ClosedKeyword(front, WHERE, ClausePieces(where.value));
      AppendAssociates(front, Spaced(WHERE), ClausePieces(where.value));
    } else {
      assert front + WherePieces(where) == front;
    }
  }

  lemma {:induction false} WhereOk(tests: seq<Test>, filter: Option<Clause>)
    requires filter.Some? ==> ClauseOk(filter.value)
    requires forall t :: t in tests ==> t.Compare?
    ensures WhereClause(tests, filter).Some? ==> ClauseOk(WhereClause(tests, filter).value)
  {
    if tests != [] {
      WhereOk(tests[1..], filter);
      assert tests[0] in tests && TestOk(tests[0]);
      BeforeOk(Some(Leaf(tests[0])), WhereClause(tests[1..], filter));
    }
  }

  // ----- reading a whole statement -----

  datatype Statement = Statement(
    columns: seq<string>, object_: (string, string, string), asOf: Option<string>, where: Option<Cond>,
    limit: TypedBinding)

  function ParseColumns(ts: seq<Tok>): (r: Option<(seq<string>, seq<Tok>)>)
    ensures r.Some? ==> r.value.0 != [] && |r.value.1| < |ts|
  {
    if |ts| < 2 || !ts[0].TIdent? then None
    else if ts[1] == TWord(FROM) then Some(([ts[0].name], ts[2..]))
    else if ts[1] == TSym(",") then
      match ParseColumns(ts[2..])
      case None => None
      case Some((names, rest)) => Some(([ts[0].name] + names, rest))
    else None
  }

  function ParseObject(ts: seq<Tok>): Option<((string, string, string), seq<Tok>)> {
    if |ts| >= 5 && ts[0].TIdent? && ts[1] == TSym(".") && ts[2].TIdent? && ts[3] == TSym(".") && ts[4].TIdent? then
      Some(((ts[0].name, ts[2].name, ts[4].name), ts[5..]))
    else None
  }

  function ParseAsOf(ts: seq<Tok>): Option<(Option<string>, seq<Tok>)> {
    if ts == [] || ts[0] != TWord(AT) then Some((None, ts))
    else if |ts| >= 8 && ts[1] == TSym("(") && ts[2] == TWord(TIMESTAMP) && ts[3] == TSym("=>") && ts[4].TLit?
         && ts[5] == TSym("::") && ts[6] == TWord(TIMESTAMP_TZ) && ts[7] == TSym(")") then
      Some((Some(ts[4].value), ts[8..]))
    else None
  }

  function ParseWhere(ts: seq<Tok>, bs: seq<TypedBinding>): Parsed<Option<Cond>> {
    if ts == [] || ts[0] != TWord(WHERE) then Done(None, ts, bs)
    else
      match ParseOr(ts[1..], bs)
      case Fail => Fail
      case Done(c, rest, left) => Done(Some(c), rest, left)
  }

  /** SELECT columns FROM object [AT (...)] [WHERE condition] LIMIT ?, all of the text
      and all of the bindings. */
  function ParseStatement(ts: seq<Tok>, bs: seq<TypedBinding>): Option<Statement> {
    if ts == [] || ts[0] != TWord(SELECT) then None
    else
      match ParseColumns(ts[1..])
      case None => None
      case Some((columns, ts1)) =>
        match ParseObject(ts1)
        case None => None
        case Some((object_, ts2)) =>
          match ParseAsOf(ts2)
          case None => None
          case Some((asOf, ts3)) =>
            match ParseWhere(ts3, bs)
            case Fail => None
            case Done(where, ts4, left) =>
              if ts4 == [TWord(LIMIT), TParam] && |left| == 1 then
                Some(Statement(columns, object_, asOf, where, left[0]))
              else None
  }

  function Names(columns: seq<ColumnEntry>): seq<string> {
    seq(|columns|, i requires 0 <= i < |columns| => columns[i].column)
  }

  lemma {:induction false} ReadColumns(columns: seq<ColumnEntry>, ts: seq<Tok>, rest: seq<Tok>)
    requires columns != [] && ts == Toks(ColumnPieces(columns)) + [TWord(FROM)] + rest
    ensures ParseColumns(ts) == Some((Names(columns), rest))
    decreases |columns|
  {
    if |columns| == 1 {
      var name := columns[0].column;
      assert Toks(ColumnPieces(columns)) == [TIdent(name)] && Names(columns) == [name] by {
        OnePiece(Ident(name));
      }
      hide Toks, ColumnPieces, Names;
      assert ts == [TIdent(name), TWord(FROM)] + rest;
      assert ([TIdent(name), TWord(FROM)] + rest)[2..] == rest;
    } else {
      var head, more := [Ident(columns[0].column), Sym(","), Space], ColumnPieces(columns[1..]);
      assert ColumnPieces(columns) == head + more;
      assert Names(columns) == [columns[0].column] + Names(columns[1..]);
      hide Toks, ColumnPieces, Names;
      ToksConcat(head, more);
      ToksOfColumnHead(columns[0].column);
      var next := Toks(more) + [TWord(FROM)] + rest;
      AppendAssociates([TIdent(columns[0].column), TSym(",")], Toks(more), [TWord(FROM)]);
      AppendAssociates([TIdent(columns[0].column), TSym(",")], Toks(more) + [TWord(FROM)], rest);
      ReadColumns(columns[1..], next, rest);
      ParseColumnsStep(columns[0].column, next);
    }
  }

  lemma ToksOfColumnHead(name: string)
    ensures Toks([Ident(name), Sym(","), Space]) == [TIdent(name), TSym(",")]
  {
    ThreePieces(Ident(name), Sym(","), Space);
  }

  lemma ParseColumnsStep(name: string, next: seq<Tok>)
    ensures ParseColumns([TIdent(name), TSym(",")] + next)
         == match ParseColumns(next) case None => None case Some((names, rest)) => Some(([name] + names, rest))
  {
    assert ([TIdent(name), TSym(",")] + next)[2..] == next;
  }

  lemma ToksOfObject(m: DatasetManifest)
    ensures Toks(ObjectPieces(m)) == [TIdent(m.database), TSym("."), TIdent(m.schema), TSym("."), TIdent(m.object_)]
  {
    hide Toks;
    var x, y := [Ident(m.database), Sym("."), Ident(m.schema)], [Sym("."), Ident(m.object_)];
    assert ObjectPieces(m) == x + y;
    ToksConcat(x, y);
    ThreePieces(Ident(m.database), Sym("."), Ident(m.schema));
    TwoPieces(Sym("."), Ident(m.object_));
  }

  lemma GatherFive<T>(a: T, b: T, c: T, d: T, e: T)
    ensures ([a] + []) + ([b] + []) + ([c] + [d] + [e]) == [a, b, c, d, e]
  {
  }

  lemma StampParts(v: string)
    ensures StampPieces(v)
         == [Word(TIMESTAMP), Space] + [Sym("=>"), Space] + [Literal(v), Sym("::"), Word(TIMESTAMP_TZ)]
    ensures TokOf(Word(TIMESTAMP)) == [TWord(TIMESTAMP)] && TokOf(Space) == [] && TokOf(Sym("=>")) == [TSym("=>")]
    ensures TokOf(Literal(v)) == [TLit(v)] && TokOf(Sym("::")) == [TSym("::")]
    ensures TokOf(Word(TIMESTAMP_TZ)) == [TWord(TIMESTAMP_TZ)]
  {
  }

  lemma ToksOfStamp(v: string)
    ensures Toks(StampPieces(v))
         == [TWord(TIMESTAMP), TSym("=>"), TLit(v), TSym("::"), TWord(TIMESTAMP_TZ)]
  {
    hide *;
    var x, y, z := [Word(TIMESTAMP), Space], [Sym("=>"), Space], [Literal(v), Sym("::"), Word(TIMESTAMP_TZ)];
    StampParts(v);
    ToksConcat(x, y);
    ToksConcat(x + y, z);
    TwoPieces(Word(TIMESTAMP), Space);
    TwoPieces(Sym("=>"), Space);
    ThreePieces(Literal(v), Sym("::"), Word(TIMESTAMP_TZ));
    GatherFive(TWord(TIMESTAMP), TSym("=>"), TLit(v), TSym("::"), TWord(TIMESTAMP_TZ));
  }

  lemma ToksOfAsOf(v: string)
    ensures Toks(AsOfPieces(Some(v)))
         == [TWord(AT), TSym("(")] + [TWord(TIMESTAMP), TSym("=>"), TLit(v), TSym("::"), TWord(TIMESTAMP_TZ)] + [TSym(")")]
  {
    hide Toks, StampPieces;
    ToksOfStamp(v);
    PiecesOfBracketed(StampPieces(v));
    TwoPieces(Space, Word(AT));
    ToksConcat([Space, Word(AT)], Bracketed(StampPieces(v)));
  }

  lemma ToksOfPlan(m: DatasetManifest, projection: seq<ColumnEntry>, asOf: Option<string>, where: Option<Clause>,
                   limit: nat)
    ensures Toks(PlanPieces(m, projection, asOf, where, limit))
         == [TWord(SELECT)] + Toks(ColumnPieces(projection)) + [TWord(FROM)] + Toks(ObjectPieces(m))
            + Toks(AsOfPieces(asOf)) + Toks(WherePieces(where)) + [TWord(LIMIT), TParam]
  {
    var a, b, c, d := [Word(SELECT), Space], ColumnPieces(projection), ObjectPieces(m), AsOfPieces(asOf);
    var e, last := WherePieces(where), [Param(LimitBinding(limit))];
    var front := a + b + Spaced(FROM) + c + d + e;
    assert PlanPieces(m, projection, asOf, where, limit) == front + Spaced(LIMIT) + last;
    hide *;
    ToksOfEnds(LimitBinding(limit));
    ToksConcat(a, b);
    PiecesAround(a + b, FROM, c);
    ToksConcat(a + b + Spaced(FROM) + c, d);
    ToksConcat(a + b + Spaced(FROM) + c + d, e);
    PiecesAround(front, LIMIT, last);
    LastTwo(Toks(front), TWord(LIMIT), TParam);
  }

  lemma ToksOfEnds(b: TypedBinding)
    ensures Toks([Word(SELECT), Space]) == [TWord(SELECT)] && Toks([Param(b)]) == [TParam]
  {
    TwoPieces(Word(SELECT), Space);
    OnePiece(Param(b));
    hide Toks;
  }

  lemma LastTwo<T>(x: seq<T>, a: T, b: T)
    ensures x + [a] + [b] == x + [a, b]
  {
  }

  /** The statement a plan's parts stand for. */
  function StatementOf(m: DatasetManifest, projection: seq<ColumnEntry>, asOf: Option<string>, where: Option<Clause>,
                       limit: nat): Statement
  {
    Statement(Names(projection), (m.database, m.schema, m.object_), asOf,
              if where.None? then None else Some(ClauseCond(where.value)), LimitBinding(limit))
  }

  lemma ReadAsOf(asOf: Option<string>, rest: seq<Tok>)
    requires rest != [] && rest[0] != TWord(AT)
    ensures ParseAsOf(Toks(AsOfPieces(asOf)) + rest) == Some((asOf, rest))
  {
    if asOf.Some? {
      ToksOfAsOf(asOf.value);
      var ts := Toks(AsOfPieces(asOf)) + rest;
      assert ts[8..] == rest;
    } else {
      assert [] + rest == rest;
    }
  }

  const LIMIT_TOKS: seq<Tok> := [TWord(LIMIT), TParam]

  lemma ReadWhere(where: Option<Clause>, left: TypedBinding)
    requires where.Some? ==> ClauseOk(where.value)
    ensures ParseWhere(Toks(WherePieces(where)) + LIMIT_TOKS, OptionParams(where) + [left])
         == Done(if where.None? then None else Some(ClauseCond(where.value)), LIMIT_TOKS, [left])
  {
    var rest := LIMIT_TOKS;
    if where.Some? {
      hide ParseOr;
      var ts := Toks(ClausePieces(where.value)) + rest;
      ToksConcat(Spaced(WHERE), ClausePieces(where.value));
      PiecesOfKeyword(WHERE);
      assert Toks(WherePieces(where)) + rest == [TWord(WHERE)] + ts;
      assert ([TWord(WHERE)] + ts)[1..] == ts;
      ReadClause(where.value, ts, rest, [left]);
    } else {
      assert [] + rest == rest && [] + [left] == [left];
    }
  }

  lemma ReadObject(m: DatasetManifest, rest: seq<Tok>)
    ensures ParseObject(Toks(ObjectPieces(m)) + rest) == Some(((m.database, m.schema, m.object_), rest))
  {
    ToksOfObject(m);
    assert (Toks(ObjectPieces(m)) + rest)[5..] == rest;
  }

  lemma WhereStarts(where: Option<Clause>)
    ensures var ts := Toks(WherePieces(where)) + [TWord(LIMIT), TParam]; ts[0] != TWord(AT)
  {
    if where.Some? {
      ToksConcat(Spaced(WHERE), ClausePieces(where.value));
      PiecesOfKeyword(WHERE);
    }
  }

  lemma Rightwards<T>(a: seq<T>, b: seq<T>, c: seq<T>, d: seq<T>, e: seq<T>, f: seq<T>, g: seq<T>)
    ensures a + b + c + d + e + f + g == a + (b + c + (d + (e + (f + g))))
  {
  }

  /** The statement parser, part by part. */
  lemma StatementSteps(ts0: seq<Tok>, bs: seq<TypedBinding>, names: seq<string>, ts1: seq<Tok>,
                       object_: (string, string, string), ts2: seq<Tok>, asOf: Option<string>, ts3: seq<Tok>,
                       where: Option<Cond>, limit: TypedBinding)
    requires ParseColumns(ts0) == Some((names, ts1))
    requires ParseObject(ts1) == Some((object_, ts2))
    requires ParseAsOf(ts2) == Some((asOf, ts3))
    requires ParseWhere(ts3, bs) == Done(where, LIMIT_TOKS, [limit])
    ensures ParseStatement([TWord(SELECT)] + ts0, bs) == Some(Statement(names, object_, asOf, where, limit))
  {
    hide ParseColumns, ParseObject, ParseAsOf, ParseWhere;
    assert ([TWord(SELECT)] + ts0)[1..] == ts0;
  }

  /** The text and bindings of a plan read back as its statement, exactly when it
      selects some column. */
  lemma ReadPlan(m: DatasetManifest, projection: seq<ColumnEntry>, asOf: Option<string>, where: Option<Clause>,
                 limit: nat, pieces: seq<Piece>)
    requires where.Some? ==> ClauseOk(where.value)
    requires pieces == PlanPieces(m, projection, asOf, where, limit)
    ensures ParseStatement(Toks(pieces), Params(pieces))
         == if projection == [] then None else Some(StatementOf(m, projection, asOf, where, limit))
  {
    ToksOfPlan(m, projection, asOf, where, limit);
    TextOfPlan(m, projection, asOf, where, limit);
    var none := Toks(ColumnPieces([]));
    assert none == [];
    hide ParseObject, ParseAsOf, ParseWhere, ParseColumns, Toks, Params, PlanPieces, WherePieces, ObjectPieces,
      AsOfPieces, ColumnPieces;
    var ts3 := Toks(WherePieces(where)) + LIMIT_TOKS;
    var ts2 := Toks(AsOfPieces(asOf)) + ts3;
    var ts1 := Toks(ObjectPieces(m)) + ts2;
    var ts0 := Toks(ColumnPieces(projection)) + [TWord(FROM)] + ts1;
    Rightwards([TWord(SELECT)], Toks(ColumnPieces(projection)), [TWord(FROM)], Toks(ObjectPieces(m)),
               Toks(AsOfPieces(asOf)), Toks(WherePieces(where)), LIMIT_TOKS);
    if projection == [] {
      AppendSplits([TWord(SELECT)], ts0);
      NoColumns(ts1);
    } else {
      ReadColumns(projection, ts0, ts1);
      ReadObject(m, ts2);
      WhereStarts(where);
      ReadAsOf(asOf, ts3);
      ReadWhere(where, LimitBinding(limit));
      StatementSteps(ts0, Params(pieces), Names(projection), ts1, (m.database, m.schema, m.object_), ts2, asOf, ts3,
                     if where.None? then None else Some(ClauseCond(where.value)), LimitBinding(limit));
    }
  }

  lemma NoColumns(ts1: seq<Tok>)
    ensures ParseColumns([] + [TWord(FROM)] + ts1).None?
  {
  }

  // ----- the bindings of a validated tree -----

  /** The leaf values, each once, in the order and. or, not. */
  function TreeBindings(p: PredicateAst, columns: seq<ColumnEntry>, uni: Unicode): seq<TypedBinding>
    decreases p, 1
  {
    match p
    case Single(leaf) =>
      (match FindColumn(uni, leaf.column, columns)
       case None => []
       case Some(c) => BindEach(c.dtype, ValueStrings(leaf.value)))
    case Compound(conj, disj, neg) =>
      ManyBindings(conj, columns, uni) + ManyBindings(disj, columns, uni)
      + match neg case None => [] case Some(n) => TreeBindings(n, columns, uni)
  }

  function ManyBindings(ps: seq<PredicateAst>, columns: seq<ColumnEntry>, uni: Unicode): seq<TypedBinding>
    decreases ps, 0
  {
    if ps == [] then [] else TreeBindings(ps[0], columns, uni) + ManyBindings(ps[1..], columns, uni)
  }

  lemma LeafBindings(leaf: LeafPredicate, columns: seq<ColumnEntry>, uni: Unicode)
    requires LeafRefusals(leaf, columns, BuiltInOperators(), uni) == []
    ensures ShapeLeaf(leaf, columns, uni).Ok?
    ensures TestParams(ShapeLeaf(leaf, columns, uni).value) == TreeBindings(Single(leaf), columns, uni)
  {
    hide OperatorNamed, BuiltInOperators, BindingFor, LeafRefusals, BindEach, FindColumn, ValueStrings, ValueAt, TestOk;
    ValidLeafCompiles(leaf, columns, uni);
    var column := FindColumn(uni, leaf.column, columns);
    assert column.Some?;
    BindFew(column.value.dtype, ValueStrings(leaf.value));
    match OperatorNamed(leaf.op) {
      case OpCompare(_) =>
      case OpBetween =>
      case OpIn =>
      case OpIsNull =>
      case OpIsNotNull =>
      case OpContains =>
    }
  }

  lemma BindFew(dtype: DtypeClass, values: seq<string>)
    ensures |values| == 0 ==> BindEach(dtype, values) == []
    ensures |values| == 1 ==> BindEach(dtype, values) == [BindingFor(dtype, ValueAt(values, 0))]
    ensures |values| == 2
        ==> BindEach(dtype, values) == [BindingFor(dtype, ValueAt(values, 0)), BindingFor(dtype, ValueAt(values, 1))]
  {
    hide BindingFor;
    if |values| == 2 {
      assert values[1..][1..] == [];
    }
  }

  /** A validated tree pushes its leaf values in text order, none left out. */
  lemma {:induction false} ShapeBindings(p: PredicateAst, columns: seq<ColumnEntry>, uni: Unicode)
    requires NodeRefusals(p, columns, BuiltInOperators(), uni) == []
    ensures Shape(p, columns, uni).Ok?
    ensures OptionParams(Shape(p, columns, uni).value) == TreeBindings(p, columns, uni)
    decreases p, 1
  {
    ValidTreeCompiles(p, columns, uni);
    match p {
      case Single(leaf) =>
        LeafBindings(leaf, columns, uni);
        var t := ShapeLeaf(leaf, columns, uni).value;
        PiecesOfTest(t);
        assert ClausePieces(One(Leaf(t))) == TestPieces(t);
      case Compound(conj, disj, neg) =>
        hide BuiltInOperators, Params, EachParams;
        ShapeManyBindings(conj, columns, uni);
        ShapeManyBindings(disj, columns, uni);
        if neg.Some? {
          ShapeBindings(neg.value, columns, uni);
        }
        var n := if neg.None? then None else Shape(neg.value, columns, uni).value;
        CompoundText(ShapeMany(conj, columns, uni).value, ShapeMany(disj, columns, uni).value, n);
    }
  }

  lemma {:induction false} ShapeManyBindings(ps: seq<PredicateAst>, columns: seq<ColumnEntry>, uni: Unicode)
    requires ManyRefusals(ps, columns, BuiltInOperators(), uni) == []
    ensures ShapeMany(ps, columns, uni).Ok?
    ensures EachParams(ShapeMany(ps, columns, uni).value) == ManyBindings(ps, columns, uni)
    decreases ps, 0
  {
    if ps != [] {
      hide BuiltInOperators, Params;
      ShapeBindings(ps[0], columns, uni);
      ShapeManyBindings(ps[1..], columns, uni);
      var first, rest := Shape(ps[0], columns, uni).value, ShapeMany(ps[1..], columns, uni).value;
      if first.Some? {
        assert ([first.value] + rest)[1..] == rest;
      } else {
        assert [] + rest == rest;
      }
    }
  }

  // ----- the theorems -----

  /** The clause a request's filter and axes compile to. */
  function PlannedWhere(m: DatasetManifest, columns: seq<ColumnEntry>, req: Request, uni: Unicode): Option<Clause>
    requires FilterShape(req.filter, columns, uni).Ok?
  {
    WhereClause(AxisTests(m, columns, req, uni), FilterShape(req.filter, columns, uni).value)
  }

  function PlannedPieces(m: DatasetManifest, allColumns: seq<ColumnEntry>, req: Request, uni: Unicode): seq<Piece>
    requires FilterShape(req.filter, DatasetColumns(m.id, allColumns), uni).Ok?
  {
    var columns := DatasetColumns(m.id, allColumns);
    PlanPieces(m, Projection(m, columns, req, uni), req.asOf, PlannedWhere(m, columns, req, uni), EffectiveLimit(m, req))
  }

  const VOCABULARY: set<string> :=
    {"select", "from", "at", "timestamp", "timestamp_tz", "where", "and", "or", "not", "between", "in", "is", "null",
     "position", "0", "limit"}

  lemma KeywordsLower(k: Keyword)
    ensures AsciiLower(KeywordText(k)) in VOCABULARY
  {
    assert AsciiLower("SELECT") == "select" && AsciiLower("FROM") == "from" && AsciiLower("AT") == "at";
    assert AsciiLower("TIMESTAMP") == "timestamp" && AsciiLower("TIMESTAMP_TZ") == "timestamp_tz";
    assert AsciiLower("WHERE") == "where" && AsciiLower("AND") == "and" && AsciiLower("OR") == "or";
    assert AsciiLower("NOT") == "not" && AsciiLower("BETWEEN") == "between" && AsciiLower("IN") == "in";
    assert AsciiLower("IS") == "is" && AsciiLower("NULL") == "null" && AsciiLower("POSITION") == "position";
    assert AsciiLower("0") == "0" && AsciiLower("LIMIT") == "limit";
  }

  lemma {:induction false} WordsInVocabulary(ps: seq<Piece>)
    ensures forall w :: w in Words(ps) ==> w in VOCABULARY
  {
    if ps != [] {
      hide AsciiLower, KeywordText;
      WordsInVocabulary(ps[1..]);
      if ps[0].Word? {
        KeywordsLower(ps[0].keyword);
      }
    }
  }

  lemma {:induction false} OffsetsMatchParams(ps: seq<Piece>, at: nat)
    ensures |ParamOffsets(ps, at)| == |Params(ps)|
    decreases |ps|
  {
    if ps != [] {
      OffsetsMatchParams(ps[1..], at + |Render(ps[0])|);
    }
  }

  /** The repository's scanner over any planned text, whatever the identifiers and
      the time-travel literal hold: it ends in the Normal state, finds no semicolon,
      and reports only the planner's fixed words. Any operator catalog. */
  lemma ScannerSeesOnlyThePlanner(m: DatasetManifest, all: seq<ColumnEntry>, operators: seq<OperatorEntry>, req: Request,
                                  uni: Unicode, guard: Guard)
    requires Plan(m, all, operators, req, uni, guard).Ok?
    ensures ScanText(Plan(m, all, operators, req, uni, guard).value.sql).mode == Normal
    ensures !ScanText(Plan(m, all, operators, req, uni, guard).value.sql).hasSemicolon
    ensures forall w :: w in ScanText(Plan(m, all, operators, req, uni, guard).value.sql).words ==> w in VOCABULARY
  {
    hide PlanPieces, Projection, WhereClause, ScanText, Refusals;
    var columns := DatasetColumns(m.id, all);
    var projection, where, limit := Projection(m, columns, req, uni), PlannedWhere(m, columns, req, uni), EffectiveLimit(m, req);
    var pieces := PlanPieces(m, projection, req.asOf, where, limit);
    PlanChained(m, projection, req.asOf, where, limit);
    ScannerSeesOnlyPieces(pieces);
    WordsInVocabulary(pieces);
  }

  /** The bindings of every plan: the keys are exactly the decimals 1..n; the scanner
      meets n question marks in its Normal state; the k-th from the left is the one
      whose binding has key k. Any operator catalog. */
  lemma PlaceholdersMatchBindings(m: DatasetManifest, all: seq<ColumnEntry>, operators: seq<OperatorEntry>, req: Request,
                                  uni: Unicode, guard: Guard, plan: QueryPlan, pieces: seq<Piece>)
    requires Plan(m, all, operators, req, uni, guard) == Ok(plan)
    requires pieces == PlannedPieces(m, all, req, uni)
    ensures plan.sql == RenderAll(pieces)
    ensures plan.bindings.Keys == Keys(|Params(pieces)|)
    ensures ScanText(plan.sql).marks == ParamOffsets(pieces, 0) && |ScanText(plan.sql).marks| == |Params(pieces)|
    ensures forall k :: 1 <= k <= |Params(pieces)| ==>
              Decimal(k) in plan.bindings && plan.bindings[Decimal(k)] == Params(pieces)[k - 1]
  {
    hide PlanPieces, Projection, WhereClause, ScanText, Refusals, Keyed, AxisTests, Decimal;
    var columns := DatasetColumns(m.id, all);
    PlanChained(m, Projection(m, columns, req, uni), req.asOf, PlannedWhere(m, columns, req, uni), EffectiveLimit(m, req));
    ScannerSeesOnlyPieces(pieces);
    OffsetsMatchParams(pieces, 0);
    KeyedExact(Params(pieces));
  }

  /** The row limit binds FIXED whatever its size. */
  lemma LimitIsFixed(limit: nat)
    ensures LimitBinding(limit) == TypedBinding("FIXED", Decimal(limit))
  {
    assert Decimal(limit)[0] != '-';
  }

  function AxisBinding(column: Option<ColumnEntry>, value: Option<string>): seq<TypedBinding> {
    if column.None? || value.None? then [] else [BindingFor(column.value.dtype, value.value)]
  }

  function FilterBindings(filter: Option<PredicateAst>, columns: seq<ColumnEntry>, uni: Unicode): seq<TypedBinding> {
    match filter
    case None => []
    case Some(p) => TreeBindings(p, columns, uni)
  }

  lemma AxisTestBinding(column: Option<ColumnEntry>, op: Comparison, value: Option<string>)
    ensures TestsParams(AxisTest(column, op, value)) == AxisBinding(column, value)
  {
  }

  lemma FilterValid(columns: seq<ColumnEntry>, req: Request, uni: Unicode)
    requires FilterRefusals(columns, BuiltInOperators(), req, uni) == []
    ensures FilterShape(req.filter, columns, uni).Ok?
    ensures FilterShape(req.filter, columns, uni).value.Some? ==> ClauseOk(FilterShape(req.filter, columns, uni).value.value)
    ensures OptionParams(FilterShape(req.filter, columns, uni).value) == FilterBindings(req.filter, columns, uni)
  {
    hide BuiltInOperators, NodeRefusals;
    if req.filter.Some? {
      var refusals := NodeRefusals(req.filter.value, columns, BuiltInOperators(), uni);
      assert |FilterRefusals(columns, BuiltInOperators(), req, uni)| == |refusals|;
      ValidTreeCompiles(req.filter.value, columns, uni);
      ShapeBindings(req.filter.value, columns, uni);
    }
  }

  /** The pushing order: entity, from, to, the leaf values in text order, the limit. */
  lemma BindingOrder(m: DatasetManifest, all: seq<ColumnEntry>, req: Request, uni: Unicode, guard: Guard)
    requires Plan(m, all, BuiltInOperators(), req, uni, guard).Ok?
    ensures var columns := DatasetColumns(m.id, all);
            var entity, time := AxisColumn(m, columns, EntityKey, uni), AxisColumn(m, columns, TimeIndex, uni);
      Params(PlannedPieces(m, all, req, uni))
      == AxisBinding(entity, req.entity) + AxisBinding(time, req.from) + AxisBinding(time, req.to)
         + FilterBindings(req.filter, columns, uni) + [TypedBinding("FIXED", Decimal(EffectiveLimit(m, req)))]
  {
    hide BuiltInOperators, PlanPieces, Projection, NodeRefusals, LimitBinding, Decimal, WhereClause, FilterRefusals,
         AxisBinding, TestsParams, AxisTest;
    var columns := DatasetColumns(m.id, all);
    var entity, time := AxisColumn(m, columns, EntityKey, uni), AxisColumn(m, columns, TimeIndex, uni);
    var t1, t2, t3 := AxisTest(entity, Eq, req.entity), AxisTest(time, Ge, req.from), AxisTest(time, Le, req.to);
    FilterValid(columns, req, uni);
    TextOfPlan(m, Projection(m, columns, req, uni), req.asOf, PlannedWhere(m, columns, req, uni), EffectiveLimit(m, req));
    WhereJoins(AxisTests(m, columns, req, uni), FilterShape(req.filter, columns, uni).value);
    LimitIsFixed(EffectiveLimit(m, req));
    TestsConcat(t1, t2);
    TestsConcat(t1 + t2, t3);
    AxisTestBinding(entity, Eq, req.entity);
    AxisTestBinding(time, Ge, req.from);
    AxisTestBinding(time, Le, req.to);
  }

  // ----- the meaning of a whole plan -----

  function AxisValue(column: Option<ColumnEntry>, value: Option<string>, outside: Comparison, row: Row, server: Server)
    : Option<TV>
  {
    if column.None? || value.None? then None
    else
      Some(Not3(EvalComparison(outside, row(column.value.column), BindingFor(column.value.dtype, value.value), server)))
  }

  /** What the request selects: not (entity differs), not (time before from), not
      (time after to), and the filter; `None` when nothing restricts the rows. */
  function Selected(m: DatasetManifest, columns: seq<ColumnEntry>, req: Request, uni: Unicode, row: Row, server: Server)
    : Option<TV>
  {
    var entity, time := AxisColumn(m, columns, EntityKey, uni), AxisColumn(m, columns, TimeIndex, uni);
    Meet(AxisValue(entity, req.entity, Ne, row, server),
         Meet(AxisValue(time, req.from, Lt, row, server),
              Meet(AxisValue(time, req.to, Gt, row, server),
                   match req.filter case None => None case Some(p) => Denote(p, columns, uni, row, server))))
  }

  lemma {:induction false} WhereConcat(a: seq<Test>, b: seq<Test>, filter: Option<Clause>)
    ensures WhereClause(a + b, filter) == WhereClause(a, WhereClause(b, filter))
  {
    if a == [] {
      assert a + b == b;
    } else {
      assert (a + b)[1..] == a[1..] + b;
      WhereConcat(a[1..], b, filter);
    }
  }

  lemma AxisMeans(column: Option<ColumnEntry>, op: Comparison, outside: Comparison, value: Option<string>,
                  rest: Option<Clause>, row: Row, server: Server)
    requires (op, outside) in {(Eq, Ne), (Ge, Lt), (Le, Gt)}
    ensures ValueOf(WhereClause(AxisTest(column, op, value), rest), row, server)
         == Meet(AxisValue(column, value, outside, row, server), ValueOf(rest, row, server))
  {
    if column.Some? && value.Some? {
      var b := BindingFor(column.value.dtype, value.value);
      var test := Compare(column.value.column, op, b);
      hide BindingFor;
      assert AxisTest(column, op, value) == [test] && [test][1..] == [];
      assert WhereClause([test], rest) == Before(Some(Leaf(test)), rest);
      BeforeMeans(Some(Leaf(test)), rest, row, server);
      assert EvalTest(test, row, server) == Not3(EvalComparison(outside, row(column.value.column), b, server));
    }
  }

  lemma WhereMeans(m: DatasetManifest, columns: seq<ColumnEntry>, req: Request, uni: Unicode, row: Row, server: Server)
    requires FilterShape(req.filter, columns, uni).Ok?
    ensures ValueOf(PlannedWhere(m, columns, req, uni), row, server) == Selected(m, columns, req, uni, row, server)
  {
    hide AxisTest, AxisValue, AxisColumn, WhereClause, Shape, Denote;
    var entity, time := AxisColumn(m, columns, EntityKey, uni), AxisColumn(m, columns, TimeIndex, uni);
    var t1, t2, t3 := AxisTest(entity, Eq, req.entity), AxisTest(time, Ge, req.from), AxisTest(time, Le, req.to);
    var filter := FilterShape(req.filter, columns, uni).value;
    if req.filter.Some? {
      ShapeMeans(req.filter.value, columns, uni, row, server);
    }
    WhereConcat(t1 + t2, t3, filter);
    WhereConcat(t1, t2, WhereClause(t3, filter));
    AxisMeans(time, Le, Gt, req.to, filter, row, server);
    AxisMeans(time, Ge, Lt, req.from, WhereClause(t3, filter), row, server);
    AxisMeans(entity, Eq, Ne, req.entity, WhereClause(t2, WhereClause(t3, filter)), row, server);
  }

  /** The values of the keys "1", "2", ... in order. */
  function InOrder(bindings: map<string, TypedBinding>): seq<TypedBinding> {
    seq(|bindings|, i requires 0 <= i =>
      if Decimal(i + 1) in bindings then bindings[Decimal(i + 1)] else TypedBinding("", ""))
  }

  lemma InOrderKeyed(bs: seq<TypedBinding>)
    ensures InOrder(Keyed(bs)) == bs
  {
    hide Decimal, Keyed;
    KeyedExact(bs);
    forall i | 0 <= i < |bs|
      ensures InOrder(Keyed(bs))[i] == bs[i]
    {
      assert 1 <= i + 1 <= |bs|;
      assert bs[(i + 1) - 1] == bs[i];
    }
  }

  lemma {:induction false} ResolveSelectTotal(select: seq<string>, columns: seq<ColumnEntry>, uni: Unicode)
    requires SelectRefusals(select, columns, uni) == []
    ensures |ResolveSelect(select, columns, uni)| == |select|
    ensures select != [] ==> columns != []
  {
    if select != [] {
      ResolveSelectTotal(select[1..], columns, uni);
    }
  }

  lemma {:induction false} ResolveNothing(fields: seq<DatasetField>, uni: Unicode)
    ensures ResolveFields(fields, [], uni) == []
  {
    if fields != [] {
      ResolveNothing(fields[1..], uni);
    }
  }

  /** An accepted request selects no column exactly when the catalog lists none for
      its dataset. */
  lemma ProjectionEmpty(m: DatasetManifest, columns: seq<ColumnEntry>, operators: seq<OperatorEntry>, req: Request,
                        uni: Unicode)
    requires Refusals(m, columns, operators, req, uni) == []
    ensures Projection(m, columns, req, uni) == [] <==> columns == []
  {
    hide FilterRefusals, AxisRefusals, RowRefusals;
    ResolveSelectTotal(req.select, columns, uni);
    ResolveNothing(m.fields, uni);
  }

  /** The meaning of a plan, for every request planned with the built-in operators.
      Its text lexes; text and bindings parse as one whole statement if and only if
      the catalog lists a column of the dataset; that statement selects the projected
      columns of the manifest's object at the requested time, its condition has on
      every row the value the request denotes, and it is limited by the row limit. */
  lemma PlanMeans(m: DatasetManifest, all: seq<ColumnEntry>, req: Request, uni: Unicode, guard: Guard, plan: QueryPlan,
                  row: Row, server: Server)
    requires Plan(m, all, BuiltInOperators(), req, uni, guard) == Ok(plan)
    ensures Lex(plan.sql).Some?
    ensures var statement := ParseStatement(Lex(plan.sql).value, InOrder(plan.bindings));
            var columns := DatasetColumns(m.id, all);
      && (statement.Some? <==> columns != [])
      && (statement.Some? ==>
            var s := statement.value;
            && s.columns == Names(Projection(m, columns, req, uni))
            && s.object_ == (m.database, m.schema, m.object_)
            && s.asOf == req.asOf
            && (if s.where.None? then None else Some(Eval(s.where.value, row, server)))
               == Selected(m, columns, req, uni, row, server)
            && s.limit == TypedBinding("FIXED", Decimal(EffectiveLimit(m, req))))
  {
    hide BuiltInOperators, PlanPieces, Projection, Refusals, FilterRefusals, FilterShape, LimitBinding, Decimal, Keyed,
         ParseStatement, Lex, Selected, InOrder, Names, ClauseCond, Eval, AxisTests;
    var columns := DatasetColumns(m.id, all);
    AcceptedFilter(m, columns, req, uni);
    var projection, where, limit := Projection(m, columns, req, uni), PlannedWhere(m, columns, req, uni), EffectiveLimit(m, req);
    var pieces := PlanPieces(m, projection, req.asOf, where, limit);
    PlanChained(m, projection, req.asOf, where, limit);
    LexRendered(pieces);
    InOrderKeyed(Params(pieces));
    ReadPlan(m, projection, req.asOf, where, limit, pieces);
    ProjectionEmpty(m, columns, BuiltInOperators(), req, uni);
    WhereMeans(m, columns, req, uni, row, server);
    LimitIsFixed(limit);
  }

  /** An accepted request's filter compiles, and its WHERE clause has no empty IN. */
  lemma AcceptedFilter(m: DatasetManifest, columns: seq<ColumnEntry>, req: Request, uni: Unicode)
    requires Refusals(m, columns, BuiltInOperators(), req, uni) == []
    ensures FilterShape(req.filter, columns, uni).Ok?
    ensures PlannedWhere(m, columns, req, uni).Some? ==> ClauseOk(PlannedWhere(m, columns, req, uni).value)
  {
    hide BuiltInOperators, SelectRefusals, AxisRefusals, RowRefusals, FilterRefusals, FilterShape, WhereClause;
    assert FilterRefusals(columns, BuiltInOperators(), req, uni) == [];
    FilterValid(columns, req, uni);
    WhereOk(AxisTests(m, columns, req, uni), FilterShape(req.filter, columns, uni).value);
  }

  /** With the built-in operators a plan is refused only for an unknown dataset, a
      reported refusal, or by the safety step: the compiler never refuses. Every plan,
      whatever the operators, pushes every leaf down. */
  lemma ValidationImpliesCompilation(m: DatasetManifest, all: seq<ColumnEntry>, req: Request, uni: Unicode, guard: Guard)
    requires m.id == req.datasetId
    requires Refusals(m, DatasetColumns(m.id, all), BuiltInOperators(), req, uni) == []
    requires forall sql: string, limit: nat :: guard(sql, limit) == None
    ensures Plan(m, all, BuiltInOperators(), req, uni, guard).Ok?
    ensures Plan(m, all, BuiltInOperators(), req, uni, guard).value.pushdown.predicateFilters == FilterLeaves(req.filter)
    ensures Plan(m, all, BuiltInOperators(), req, uni, guard).value.pushdown.allPredicatesPushedDown
  {
    hide BuiltInOperators, Refusals, PlanPieces, Projection, FilterShape, AxisTests, DatasetColumns;
    AcceptedFilter(m, DatasetColumns(m.id, all), req, uni);
  }

  /** A dataset with no catalog column: the plan succeeds with an empty select list,
      and its text is no statement. */
  lemma EmptyCatalogPlan(m: DatasetManifest, req: Request, uni: Unicode, guard: Guard)
    requires m == DatasetManifest("d", "D", "S", "T", Public, 10, 10, None, None, None, [], "")
    requires req == Request("d", [], None, None, None, None, None, None, false, false)
    requires forall sql: string, limit: nat :: guard(sql, limit) == None
    ensures Plan(m, [], BuiltInOperators(), req, uni, guard).Ok?
    ensures var plan := Plan(m, [], BuiltInOperators(), req, uni, guard).value;
      && plan.sql == "SELECT " + "" + " FROM " + QuoteQualifiedObject("D", "S", "T") + "" + "" + " LIMIT " + "?"
      && Lex(plan.sql).Some? && ParseStatement(Lex(plan.sql).value, InOrder(plan.bindings)).None?
  {
    hide BuiltInOperators, PlanPieces, Keyed, ParseStatement, Lex, InOrder, QuoteQualifiedObject;
    assert Refusals(m, [], BuiltInOperators(), req, uni) == [];
    var plan := Plan(m, [], BuiltInOperators(), req, uni, guard);
    assert plan.Ok?;
    PlanMeans(m, [], req, uni, guard, plan.value, _ => None, Server((_, _) => None, (_, _) => None));
    TextOfPlan(m, [], None, None, 10);
    TextOfFront(m, [], None);
    assert NamesText([]) == [];
  }
}
