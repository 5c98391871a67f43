// The planner's methods, proved to return exactly `Planner.Plan`.
module PlanQuery {
  import opened Prelude
  import opened CatalogModel
  import opened SqlText
  import opened SqlMeaning
  import opened Clauses
  import opened Predicates
  import opened Shapes
  import opened Compiler
  import opened Planner

  method ResolveManifestFields(fields: seq<DatasetField>, columns: seq<ColumnEntry>, uni: Unicode)
    returns (projection: seq<ColumnEntry>)
    ensures projection == ResolveFields(fields, columns, uni)
  {
    hide FindColumn, ResolveFields;
    projection := [];
    assert fields[0..] == fields && [] + ResolveFields(fields, columns, uni) == ResolveFields(fields, columns, uni);
    for i := 0 to |fields|
      invariant projection + ResolveFields(fields[i..], columns, uni) == ResolveFields(fields, columns, uni)
    {
      FieldsStep(fields, i, columns, uni, projection);
      var column := FindColumn(uni, fields[i].column, columns);
      if column.Some? {
        projection := projection + [column.value];
      }
    }
    FieldsEnd(columns, uni);
    assert fields[|fields|..] == [] && projection + [] == projection;
  }

  lemma FieldsEnd(columns: seq<ColumnEntry>, uni: Unicode)
    ensures ResolveFields([], columns, uni) == []
  {
  }

  lemma FieldsStep(fields: seq<DatasetField>, i: nat, columns: seq<ColumnEntry>, uni: Unicode, found: seq<ColumnEntry>)
    requires i < |fields|
    ensures var column := FindColumn(uni, fields[i].column, columns);
      found + ResolveFields(fields[i..], columns, uni)
      == (if column.Some? then found + [column.value] else found) + ResolveFields(fields[i + 1..], columns, uni)
  {
    hide FindColumn;
    assert fields[i..][0] == fields[i] && fields[i..][1..] == fields[i + 1..];
    var column := FindColumn(uni, fields[i].column, columns);
    AppendAssociates(found, if column.Some? then [column.value] else [], ResolveFields(fields[i + 1..], columns, uni));
    assert found + [] == found;
  }

  method ResolveRequested(select: seq<string>, columns: seq<ColumnEntry>, uni: Unicode)
    returns (projection: seq<ColumnEntry>, refusals: seq<PlanRefusal>)
    ensures projection == ResolveSelect(select, columns, uni)
    ensures refusals == SelectRefusals(select, columns, uni)
  {
    hide FindColumn, ResolveSelect, SelectRefusals;
    projection, refusals := [], [];
    assert select[0..] == select;
    for i := 0 to |select|
      invariant projection + ResolveSelect(select[i..], columns, uni) == ResolveSelect(select, columns, uni)
      invariant refusals + SelectRefusals(select[i..], columns, uni) == SelectRefusals(select, columns, uni)
    {
      SelectStep(select[i..], columns, uni, projection, refusals);
      assert select[i..][1..] == select[i + 1..];
      var column := FindColumn(uni, select[i], columns);
      if column.Some? {
        projection := projection + [column.value];
      } else {
        refusals := refusals + [COLUMN_UNKNOWN];
      }
    }
    assert select[|select|..] == [];
    SelectEnd(columns, uni);
  }

  lemma SelectEnd(columns: seq<ColumnEntry>, uni: Unicode)
    ensures ResolveSelect([], columns, uni) == [] && SelectRefusals([], columns, uni) == []
  {
  }

  lemma SelectStep(select: seq<string>, columns: seq<ColumnEntry>, uni: Unicode, found: seq<ColumnEntry>,
                   refused: seq<PlanRefusal>)
    requires select != []
    ensures var column := FindColumn(uni, select[0], columns);
      && found + ResolveSelect(select, columns, uni)
         == (if column.Some? then found + [column.value] else found) + ResolveSelect(select[1..], columns, uni)
      && refused + SelectRefusals(select, columns, uni)
         == (if column.Some? then refused else refused + [COLUMN_UNKNOWN]) + SelectRefusals(select[1..], columns, uni)
  {
    hide FindColumn;
    var column := FindColumn(uni, select[0], columns);
    if column.Some? {
      AppendAssociates(found, [column.value], ResolveSelect(select[1..], columns, uni));
      assert [] + SelectRefusals(select[1..], columns, uni) == SelectRefusals(select[1..], columns, uni);
    } else {
      AppendAssociates(refused, [COLUMN_UNKNOWN], SelectRefusals(select[1..], columns, uni));
      assert [] + ResolveSelect(select[1..], columns, uni) == ResolveSelect(select[1..], columns, uni);
    }
  }

  method ResolveProjection(m: DatasetManifest, columns: seq<ColumnEntry>, req: Request, uni: Unicode)
    returns (projection: seq<ColumnEntry>, refusals: seq<PlanRefusal>)
    ensures projection == Projection(m, columns, req, uni)
    ensures refusals == SelectRefusals(req.select, columns, uni)
  {
    if req.select == [] {
      projection := ResolveManifestFields(m.fields, columns, uni);
      if projection == [] {
        projection := columns;
      }
      refusals := [];
    } else {
      projection, refusals := ResolveRequested(req.select, columns, uni);
    }
  }

  method ValidateAxes(m: DatasetManifest, columns: seq<ColumnEntry>, req: Request, uni: Unicode, before: seq<PlanRefusal>)
    returns (refusals: seq<PlanRefusal>)
    ensures refusals == before + AxisRefusals(m, columns, req, uni)
  {
    refusals := before;
    if req.entity.Some? {
      refusals := ValidateAxis(m, columns, EntityKey, uni, refusals);
    }
    if req.from.Some? || req.to.Some? {
      refusals := ValidateAxis(m, columns, TimeIndex, uni, refusals);
    }
    if req.asOf.Some? && FieldByRole(m.fields, KnownAt).None? && FieldByRole(m.fields, TimeIndex).None? {
      refusals := refusals + [AS_OF_UNSUPPORTED];
    }
  }

  method ValidateAxis(m: DatasetManifest, columns: seq<ColumnEntry>, role: FieldRole, uni: Unicode,
                      before: seq<PlanRefusal>)
    returns (refusals: seq<PlanRefusal>)
    ensures refusals == before + (if AxisColumn(m, columns, role, uni).None? then [COLUMN_UNKNOWN] else [])
  {
    refusals := before;
    var field := FieldByRole(m.fields, role);
    if field.None? {
      refusals := refusals + [COLUMN_UNKNOWN];
      return;
    }
    if FindColumn(uni, field.value.column, columns).None? {
      refusals := refusals + [COLUMN_UNKNOWN];
    }
  }

  method EnforceRowPolicy(limit: nat, m: DatasetManifest, req: Request, before: seq<PlanRefusal>)
    returns (refusals: seq<PlanRefusal>)
    requires limit == EffectiveLimit(m, req)
    ensures refusals == before + RowRefusals(m, req)
  {
    refusals := before;
    var cap :=
      if m.maxRowsWithoutExport < DEFAULT_MAX_RESULT_ROWS then m.maxRowsWithoutExport else DEFAULT_MAX_RESULT_ROWS;
    if !req.exportMode && !req.confirmed && limit > cap {
      refusals := refusals + [RESULT_TOO_LARGE];
    }
    if limit > m.maxRowsWithoutExport && !req.exportMode {
      refusals := refusals + [RESULT_TOO_LARGE];
    }
  }

  /** One axis filter: its text is pushed onto the WHERE clauses, its value bound. */
  method AddAxisFilter(column: Option<ColumnEntry>, op: Comparison, value: Option<string>, table: BindingTable,
                       before: seq<string>)
    returns (clauses: seq<string>)
    requires table.Valid()
    modifies table
    ensures table.Valid()
    ensures clauses == before + TestTexts(AxisTest(column, op, value))
    ensures table.pushed == old(table.pushed) + TestsParams(AxisTest(column, op, value))
  {
    clauses := before;
    if value.Some? && column.Some? {
      var name := column.value.column;
      var mark := table.Push(column.value.dtype, value.value);
      clauses := clauses + [QuoteIdentifier(name) + (" " + OpText(op) + " ") + mark];
      ghost var b := BindingFor(column.value.dtype, value.value);
      TextOfCompare(name, op, b);
      CompareText(QuoteIdentifier(name), OpText(op));
      assert TestsParams(AxisTest(column, op, value)) == [b];
    }
  }

  lemma CompareText(name: string, op: string)
    ensures name + (" " + op + " ") + "?" == name + " " + op + " ?"
  {
    AppendAssociates(name, " " + op + " ", "?");
    AppendAssociates(" " + op, " ", "?");
    assert " " + "?" == " ?";
    AppendAssociates(name, " ", op);
    AppendAssociates(name, " " + op, " ?");
  }

  method AddAxisFilters(m: DatasetManifest, columns: seq<ColumnEntry>, req: Request, uni: Unicode, table: BindingTable)
    returns (clauses: seq<string>, pushed: nat)
    requires table.Valid()
    modifies table
    ensures table.Valid()
    ensures clauses == TestTexts(AxisTests(m, columns, req, uni))
    ensures table.pushed == old(table.pushed) + TestsParams(AxisTests(m, columns, req, uni))
    ensures pushed == |AxisTests(m, columns, req, uni)|
  {
    var entity := AxisColumn(m, columns, EntityKey, uni);
    var time := AxisColumn(m, columns, TimeIndex, uni);
    ghost var t1, t2, t3 := AxisTest(entity, Eq, req.entity), AxisTest(time, Ge, req.from), AxisTest(time, Le, req.to);
    TestsConcat(t1, t2);
    TestsConcat(t1 + t2, t3);
    hide RenderAll, TestTexts, TestsParams, AxisTest;
    clauses := AddAxisFilter(entity, Eq, req.entity, table, []);
    clauses := AddAxisFilter(time, Ge, req.from, table, clauses);
    clauses := AddAxisFilter(time, Le, req.to, table, clauses);
    pushed := |clauses|;
    TestTextsLength(t1 + t2 + t3);
  }

  lemma TestTextsLength(tests: seq<Test>)
    ensures |TestTexts(tests)| == |tests|
  {
  }

  /** Everything checked before any text is built. */
  method CollectRefusals(m: DatasetManifest, columns: seq<ColumnEntry>, operators: seq<OperatorEntry>, req: Request,
                         uni: Unicode)
    returns (projection: seq<ColumnEntry>, refusals: seq<PlanRefusal>)
    ensures projection == Projection(m, columns, req, uni)
    ensures refusals == Refusals(m, columns, operators, req, uni)
  {
    hide SelectRefusals, AxisRefusals, RowRefusals, NodeRefusals;
    projection, refusals := ResolveProjection(m, columns, req, uni);
    refusals := ValidateAxes(m, columns, req, uni, refusals);
    if req.filter.Some? {
      var found := ValidateNode(req.filter.value, columns, operators, uni, []);
      assert found == NodeRefusals(req.filter.value, columns, operators, uni);
      refusals := refusals + seq(|found|, i requires 0 <= i < |found| => PlanCode(found[i].code));
    }
    refusals := EnforceRowPolicy(EffectiveLimit(m, req), m, req, refusals);
  }

  /** SELECT, FROM and the time-travel clause. */
  method PrintFront(m: DatasetManifest, projection: seq<ColumnEntry>, asOf: Option<string>) returns (sql: string)
    ensures sql == RenderAll(FrontPieces(m, projection, asOf))
  {
    hide RenderAll, Join, QuoteQualifiedObject, NamesText, FrontPieces;
    sql := "SELECT " + Join(NamesText(projection), ", ") + " FROM "
           + QuoteQualifiedObject(m.database, m.schema, m.object_);
    TextOfFront(m, projection, asOf);
    if asOf.Some? {
      var escaped := EscapeSnowflakeLiteral(asOf.value);
      sql := sql + (" AT(TIMESTAMP => " + ("'" + escaped + "'::TIMESTAMP_TZ") + ")");
    } else {
      assert sql + "" == sql;
    }
  }

  /** The axis filters and the predicate, appended to the text and bound. */
  method PrintWhere(m: DatasetManifest, columns: seq<ColumnEntry>, req: Request, uni: Unicode, table: BindingTable,
                    front: string)
    returns (r: Result<string, PlanRefusal>, axisFilters: nat, pushedFilters: nat)
    requires table.Valid() && table.pushed == []
    modifies table
    ensures table.Valid()
    ensures axisFilters == |AxisTests(m, columns, req, uni)|
    ensures match FilterShape(req.filter, columns, uni)
            case Err(e) => r == Err(e)
            case Ok(filter) =>
              var where := WhereClause(AxisTests(m, columns, req, uni), filter);
              && r == Ok(front + WhereText(where))
              && table.pushed == OptionParams(where)
              && pushedFilters == FilterLeaves(req.filter)
  {
    hide RenderAll, Params, Join, Keyed, AxisTests, TestTexts, TestsParams, Shape;
    var clauses;
    clauses, axisFilters := AddAxisFilters(m, columns, req, uni, table);
    ghost var tests := AxisTests(m, columns, req, uni);
    assert table.pushed == TestsParams(tests);
    pushedFilters := 0;
    if req.filter.Some? {
      var compiled := CompilePredicate(req.filter.value, columns, uni, table);
      if compiled.Err? {
        r := Err(compiled.error);
        return;
      }
      ShapePrintsLeaves(req.filter.value, columns, uni);
      if compiled.value.Some? {
        clauses := clauses + [compiled.value.value.sql];
        pushedFilters := compiled.value.value.leafCount;
      }
    }
    ghost var filter := FilterShape(req.filter, columns, uni).value;
    ghost var where := WhereClause(tests, filter);
    assert clauses == TestTexts(tests) + (if filter.None? then [] else [ClauseText(filter.value)]);
    assert table.pushed == TestsParams(tests) + OptionParams(filter);
    WhereJoins(tests, filter);
    hide WhereClause, ClauseText;
    if clauses == [] {
      r := Ok(front);
      assert front + "" == front;
    } else {
      r := Ok(front + " WHERE " + Join(clauses, " AND "));
      AppendAssociates(front, " WHERE ", ClauseText(where.value));
    }
  }

  method PlanDatasetQuery(m: DatasetManifest, allColumns: seq<ColumnEntry>, operators: seq<OperatorEntry>, req: Request,
                          uni: Unicode, guard: Guard) returns (r: Result<QueryPlan, seq<PlanRefusal>>)
    ensures r == Plan(m, allColumns, operators, req, uni, guard)
  {
    hide RenderAll, Params, Keyed, Refusals, Projection, AxisTests, FilterShape, WhereClause, WhereText, PlanPieces;
    if m.id != req.datasetId {
      return Err([DATASET_UNKNOWN]);
    }
    var columns := DatasetColumns(m.id, allColumns);
    var projection, refusals := CollectRefusals(m, columns, operators, req, uni);
    if refusals != [] {
      return Err(refusals);
    }
    var limit := EffectiveLimit(m, req);
    var table := new BindingTable();
    var front := PrintFront(m, projection, req.asOf);
    var body, axisFilters, pushedFilters := PrintWhere(m, columns, req, uni, table, front);
    if body.Err? {
      return Err([body.error]);
    }
    var mark := table.Push(Number, Decimal(limit));
    var sql := body.value + " LIMIT " + mark;
    ghost var where := WhereClause(AxisTests(m, columns, req, uni), FilterShape(req.filter, columns, uni).value);
    TextOfPlan(m, projection, req.asOf, where, limit);
    var refused := guard(sql, limit);
    if refused.Some? {
      return Err([refused.value]);
    }
    var filters := FilterLeaves(req.filter);
    r := Ok(QueryPlan(sql, table.bindings, Pushdown(|projection|, axisFilters, filters, pushedFilters == filters)));
  }
}
