// What a planned statement answers, told of the catalog's rows and the request alone: its
// columns, its bindings, and the rows it keeps.
module PlanAnswers {
  import opened Prelude
  import opened CatalogModel
  import opened Ordinals
  import opened SqlText
  import opened SqlMeaning
  import opened Predicates
  import opened Shapes
  import opened Planner
  import opened PlanTheorems
  import opened Acceptance

  // ----- the columns -----

  /** The name of the first row, in ordinal order, that `name` finds. */
  ghost predicate Finds(uni: Unicode, id: string, name: string, all: seq<ColumnEntry>, column: string) {
    exists j: nat :: FirstNamed(uni, id, name, all, j) && column == all[j].column
  }

  lemma {:induction false} SelectFinds(uni: Unicode, id: string, select: seq<string>, all: seq<ColumnEntry>)
    requires SelectRefusals(select, DatasetColumns(id, all), uni) == []
    ensures var columns := ResolveSelect(select, DatasetColumns(id, all), uni);
      |columns| == |select| && forall i :: 0 <= i < |select| ==> Finds(uni, id, select[i], all, columns[i].column)
  {
    hide FindColumn, DatasetColumns, FirstNamed, Normalize;
    if select != [] {
      var columns := DatasetColumns(id, all);
      SelectFinds(uni, id, select[1..], all);
      FoundIsFirst(uni, id, select[0], all);
      assert ResolveSelect(select, columns, uni)[1..] == ResolveSelect(select[1..], columns, uni);
      forall i | 0 <= i < |select|
        ensures Finds(uni, id, select[i], all, ResolveSelect(select, columns, uni)[i].column)
      {
        if i > 0 {
          assert select[i] == select[1..][i - 1];
        }
      }
    }
  }

  /** The positions of the fields whose column the catalog lists. */
  ghost predicate Resolvable(uni: Unicode, id: string, fields: seq<DatasetField>, all: seq<ColumnEntry>, at: seq<nat>) {
    && (forall k :: 0 <= k < |at| ==> at[k] < |fields| && HasRow(uni, id, fields[at[k]].column, all))
    && (forall i :: 0 <= i < |fields| && HasRow(uni, id, fields[i].column, all) ==> i in at)
    && (forall k, l :: 0 <= k < l < |at| ==> at[k] < at[l])
  }

  lemma {:induction false} FieldsFind(uni: Unicode, id: string, fields: seq<DatasetField>, all: seq<ColumnEntry>)
    returns (at: seq<nat>)
    ensures Resolvable(uni, id, fields, all, at)
    ensures var columns := ResolveFields(fields, DatasetColumns(id, all), uni);
      |columns| == |at| && forall k :: 0 <= k < |at| ==> Finds(uni, id, fields[at[k]].column, all, columns[k].column)
    decreases |fields|
  {
    hide FindColumn, DatasetColumns, FirstNamed, Normalize, HasRow;
    at := [];
    if fields != [] {
      var last := |fields| - 1;
      at := FieldsFind(uni, id, fields[..last], all);
      hide ResolveFields;
      FieldsLast(uni, fields, DatasetColumns(id, all));
      FoundIsFirst(uni, id, fields[last].column, all);
      FoundIfRow(uni, id, fields[last].column, all);
      if FindColumn(uni, fields[last].column, DatasetColumns(id, all)).Some? {
        at := at + [last];
      }
    }
  }

  lemma {:induction false} FieldsLast(uni: Unicode, fields: seq<DatasetField>, columns: seq<ColumnEntry>)
    requires fields != []
    ensures var last := FindColumn(uni, fields[|fields| - 1].column, columns);
      ResolveFields(fields, columns, uni)
      == ResolveFields(fields[..|fields| - 1], columns, uni) + (if last.None? then [] else [last.value])
  {
    hide FindColumn;
    if |fields| > 1 {
      assert fields[..|fields| - 1][1..] == fields[1..][..|fields| - 2];
      FieldsLast(uni, fields[1..], columns);
    } else {
      assert fields[..0] == [] && fields[1..] == [];
    }
  }

  function Read(plan: QueryPlan): Option<Statement>
    requires Lex(plan.sql).Some?
  {
    ParseStatement(Lex(plan.sql).value, InOrder(plan.bindings))
  }

  lemma ReadIs(plan: QueryPlan)
    requires Lex(plan.sql).Some?
    ensures Read(plan) == ParseStatement(Lex(plan.sql).value, InOrder(plan.bindings))
  {
  }

  /** With a select list, the statement has one column for each name, that of the first
      row the name finds. */
  lemma SelectedColumns(m: DatasetManifest, all: seq<ColumnEntry>, req: Request, uni: Unicode, guard: Guard,
                        plan: QueryPlan)
    requires Plan(m, all, BuiltInOperators(), req, uni, guard) == Ok(plan) && req.select != []
    ensures Lex(plan.sql).Some? && Read(plan).Some?
    ensures var columns := Read(plan).value.columns;
      |columns| == |req.select| && plan.pushdown.projectedColumns == |req.select|
      && forall i :: 0 <= i < |req.select| ==> Finds(uni, m.id, req.select[i], all, columns[i])
  {
    var columns := DatasetColumns(m.id, all);
    assert Projection(m, columns, req, uni) == ResolveSelect(req.select, columns, uni);
    hide *;
    Accepted(m, all, req, uni, guard, plan);
    SelectFinds(uni, m.id, req.select, all);
    ResolveSelectTotal(req.select, columns, uni);
    StatementColumns(m, all, req, uni, guard, plan);
  }

  lemma Accepted(m: DatasetManifest, all: seq<ColumnEntry>, req: Request, uni: Unicode, guard: Guard, plan: QueryPlan)
    requires Plan(m, all, BuiltInOperators(), req, uni, guard) == Ok(plan)
    ensures var columns := DatasetColumns(m.id, all);
      && Refusals(m, columns, BuiltInOperators(), req, uni) == []
      && SelectRefusals(req.select, columns, uni) == []
      && FilterRefusals(columns, BuiltInOperators(), req, uni) == []
      && plan.pushdown == Pushdown(|Projection(m, columns, req, uni)|, |AxisTests(m, columns, req, uni)|,
                                   FilterLeaves(req.filter), true)
  {
    hide DatasetColumns, BuiltInOperators, SelectRefusals, AxisRefusals, FilterRefusals, RowRefusals, Projection,
         AxisTests, FilterShape, PlanPieces, WhereClause;
  }

  /** Without one, the columns of the manifest's fields, in the manifest's order, of which
      those that the catalog does not list are passed over. */
  lemma ManifestColumns(m: DatasetManifest, all: seq<ColumnEntry>, req: Request, uni: Unicode, guard: Guard,
                        plan: QueryPlan) returns (at: seq<nat>)
    requires Plan(m, all, BuiltInOperators(), req, uni, guard) == Ok(plan) && req.select == []
    ensures Lex(plan.sql).Some? && Resolvable(uni, m.id, m.fields, all, at)
    ensures at != [] ==> Read(plan).Some?
    ensures at != [] ==>
              var columns := Read(plan).value.columns;
              |columns| == |at| && plan.pushdown.projectedColumns == |at|
              && forall k :: 0 <= k < |at| ==> Finds(uni, m.id, m.fields[at[k]].column, all, columns[k])
  {
    hide *;
    at := FieldsFind(uni, m.id, m.fields, all);
    ResolveNothing(m.fields, uni);
    StatementColumns(m, all, req, uni, guard, plan);
    ProjectionIs(m, DatasetColumns(m.id, all), req, uni);
  }

  lemma ProjectionIs(m: DatasetManifest, columns: seq<ColumnEntry>, req: Request, uni: Unicode)
    requires req.select == []
    ensures var fields := ResolveFields(m.fields, columns, uni);
      Projection(m, columns, req, uni) == if fields == [] then columns else fields
  {
  }

  lemma StatementColumns(m: DatasetManifest, all: seq<ColumnEntry>, req: Request, uni: Unicode, guard: Guard,
                         plan: QueryPlan)
    requires Plan(m, all, BuiltInOperators(), req, uni, guard) == Ok(plan)
    ensures Lex(plan.sql).Some?
    ensures Read(plan).Some? <==> DatasetColumns(m.id, all) != []
    ensures var projection := Projection(m, DatasetColumns(m.id, all), req, uni);
      && plan.pushdown.projectedColumns == |projection|
      && (Read(plan).Some? ==>
            && |Read(plan).value.columns| == |projection|
            && forall i :: 0 <= i < |projection| ==> Read(plan).value.columns[i] == projection[i].column)
  {
    hide *;
    Accepted(m, all, req, uni, guard, plan);
    PlanMeans(m, all, req, uni, guard, plan, _ => None, Server((_, _) => None, (_, _) => None));
    ReadIs(plan);
    NamesAre(Projection(m, DatasetColumns(m.id, all), req, uni));
  }

  lemma NamesAre(columns: seq<ColumnEntry>)
    ensures |Names(columns)| == |columns| && forall i :: 0 <= i < |columns| ==> Names(columns)[i] == columns[i].column
  {
  }

  /** And if the catalog lists the column of no field, all its rows of the dataset, in
      ascending ordinal order. */
  lemma EveryColumn(m: DatasetManifest, all: seq<ColumnEntry>, req: Request, uni: Unicode, guard: Guard,
                    plan: QueryPlan) returns (at: seq<nat>)
    requires Plan(m, all, BuiltInOperators(), req, uni, guard) == Ok(plan) && req.select == []
    requires forall i :: 0 <= i < |m.fields| ==> !HasRow(uni, m.id, m.fields[i].column, all)
    ensures Lex(plan.sql).Some? && Lists(m.id, all, at) && plan.pushdown.projectedColumns == |at|
    ensures Read(plan).Some? <==> at != []
    ensures at != [] ==>
              var columns := Read(plan).value.columns;
              |columns| == |at| && forall k :: 0 <= k < |at| ==> columns[k] == all[at[k]].column
  {
    hide *;
    var fields := FieldsFind(uni, m.id, m.fields, all);
    FirstResolvable(uni, m.id, m.fields, all, fields);
    at := OrdinalOrder(m.id, all);
    StatementColumns(m, all, req, uni, guard, plan);
    ProjectionIs(m, DatasetColumns(m.id, all), req, uni);
    RowsAre(m.id, all, at);
  }

  lemma FirstResolvable(uni: Unicode, id: string, fields: seq<DatasetField>, all: seq<ColumnEntry>, at: seq<nat>)
    requires Resolvable(uni, id, fields, all, at)
    ensures at != [] ==> exists i :: 0 <= i < |fields| && HasRow(uni, id, fields[i].column, all)
  {
    hide HasRow;
    if at != [] {
      assert HasRow(uni, id, fields[at[0]].column, all);
    }
  }

  lemma RowsAre(id: string, all: seq<ColumnEntry>, at: seq<nat>)
    requires Lists(id, all, at)
    ensures forall k :: 0 <= k < |at| ==> at[k] < |all|
    ensures |Rows(all, at)| == |at| && forall k :: 0 <= k < |at| ==> Rows(all, at)[k] == all[at[k]]
  {
    hide Earlier;
  }

  // ----- the bindings -----

  ghost predicate Numeral(text: string) {
    exists digits: string ::
      && (text == digits || text == "-" + digits) && digits != []
      && forall i :: 0 <= i < |digits| ==> '0' <= digits[i] <= '9'
  }

  /** The letters of `word`, which is in lower case, each in either case. */
  predicate Spells(text: string, word: string) {
    |text| == |word| && forall i :: 0 <= i < |word| ==> text[i] == word[i] || text[i] == AsciiUpperChar(word[i])
  }

  lemma IntegerIsNumeral(text: string)
    ensures IsIntegerLiteral(text) <==> Numeral(text)
  {
    if IsIntegerLiteral(text) {
      var digits := if text[0] == '-' then text[1..] else text;
      assert text == digits || text == "-" + digits;
      assert AllDigits(digits);
    }
    if Numeral(text) {
      var digits: string :| (text == digits || text == "-" + digits) && digits != []
                            && forall i :: 0 <= i < |digits| ==> '0' <= digits[i] <= '9';
      NumeralIsInteger(digits);
    }
  }

  lemma NumeralIsInteger(digits: string)
    requires digits != [] && forall i :: 0 <= i < |digits| ==> '0' <= digits[i] <= '9'
    ensures IsIntegerLiteral(digits) && IsIntegerLiteral("-" + digits)
  {
    assert digits[0] != '-';
    assert ("-" + digits)[1..] == digits && ("-" + digits)[0] == '-';
  }

  lemma LowerSpells(text: string, word: string)
    requires forall i :: 0 <= i < |word| ==> 'a' <= word[i] <= 'z'
    ensures AsciiLower(text) == word <==> Spells(text, word)
  {
    if AsciiLower(text) == word {
      forall i | 0 <= i < |word|
        ensures text[i] == word[i] || text[i] == AsciiUpperChar(word[i])
      {
        assert AsciiLower(text)[i] == word[i];
      }
    }
  }

  /** An integer compared with a number binds FIXED, true and false compared with a boolean
      bind BOOLEAN in lower case, and everything else binds TEXT; the text is the value. */
  lemma BindingMeans(dtype: DtypeClass, text: string)
    ensures BindingFor(dtype, text)
         == (if dtype == Number && Numeral(text) then TypedBinding("FIXED", text)
             else if dtype == Boolean && Spells(text, "true") then TypedBinding("BOOLEAN", "true")
             else if dtype == Boolean && Spells(text, "false") then TypedBinding("BOOLEAN", "false")
             else TypedBinding("TEXT", text))
  {
    hide *;
    IntegerIsNumeral(text);
    LowerSpells(text, "true");
    LowerSpells(text, "false");
    Bindings(dtype, text);
  }

  lemma Bindings(dtype: DtypeClass, text: string)
    ensures BindingFor(dtype, text)
         == (if dtype == Number && IsIntegerLiteral(text) then TypedBinding("FIXED", text)
             else if dtype == Boolean && AsciiLower(text) == "true" then TypedBinding("BOOLEAN", "true")
             else if dtype == Boolean && AsciiLower(text) == "false" then TypedBinding("BOOLEAN", "false")
             else TypedBinding("TEXT", text))
  {
    hide IsIntegerLiteral, AsciiLower;
    var lower := AsciiLower(text);
    assert lower in ["true", "false"] <==> lower == "true" || lower == "false";
  }

  // ----- the leaves -----

  /** How a cell compares with a text: below, at or above zero, or not at all. */
  function Sign(cell: Option<string>, dtype: DtypeClass, text: string, server: Server): Option<int> {
    if cell.None? then None else server.order(cell.value, BindingFor(dtype, text))
  }

  predicate HoldsFor(op: string, sign: int) {
    || (op == "eq" && sign == 0) || (op == "neq" && sign != 0) || (op == "lt" && sign < 0)
    || (op == "lte" && sign <= 0) || (op == "gt" && sign > 0) || (op == "gte" && sign >= 0)
  }

  /** The value a leaf has for a cell of its column, told by the name of its operator. */
  ghost predicate LeafValue(v: TV, op: string, values: seq<string>, cell: Option<string>, dtype: DtypeClass,
                            server: Server)
  {
    if op == "is_null" then v == (if cell.None? then True else False)
    else if op == "is_not_null" then v == (if cell.None? then False else True)
    else if op == "contains" then
      |values| == 1 &&
      var at := if cell.None? then None else server.position(BindingFor(dtype, values[0]), cell.value);
      v == (if at.None? then Unknown else if at.value > 0 then True else False)
    else if op == "between" then
      |values| == 2 &&
      var low, high := Sign(cell, dtype, values[0], server), Sign(cell, dtype, values[1], server);
      v == (if (low.Some? && low.value < 0) || (high.Some? && high.value > 0) then False
            else if low.None? || high.None? then Unknown else True)
    else if op == "in" then
      && (v == True <==> exists i :: 0 <= i < |values| && Sign(cell, dtype, values[i], server) == Some(0))
      && (v == False <==> forall i :: 0 <= i < |values| ==>
                            Sign(cell, dtype, values[i], server).Some? && Sign(cell, dtype, values[i], server) != Some(0))
    else
      |values| == 1 &&
      var sign := Sign(cell, dtype, values[0], server);
      v == (if sign.None? then Unknown else if HoldsFor(op, sign.value) then True else False)
  }

  lemma {:induction false} AnyMeans(column: ColumnEntry, values: seq<string>, row: Row, server: Server)
    ensures LeafValue(DenoteAny(column, values, row, server), "in", values, row(column.column), column.dtype, server)
  {
    hide BindingFor;
    if values != [] {
      AnyMeans(column, values[1..], row, server);
      assert forall i :: 0 < i < |values| ==> values[i] == values[1..][i - 1];
      assert forall i :: 0 <= i < |values[1..]| ==> values[1..][i] == values[i + 1];
    }
  }

  lemma ComparisonNamed(op: string, comparison: Comparison, cell: Option<string>, dtype: DtypeClass, text: string,
                        server: Server)
    requires OperatorNamed(op) == OpCompare(comparison)
    ensures LeafValue(DenoteComparison(comparison, cell, BindingFor(dtype, text), server), op, [text], cell, dtype, server)
  {
    hide BindingFor;
    Comparisons(op, comparison);
  }

  lemma Comparisons(op: string, comparison: Comparison)
    requires OperatorNamed(op) == OpCompare(comparison)
    ensures match comparison
            case Eq => op == "eq"
            case Ne => op == "neq"
            case Lt => op == "lt"
            case Le => op == "lte"
            case Gt => op == "gt"
            case Ge => op == "gte"
  {
  }

  /** An accepted leaf has, on every row, the value that the name of its operator promises
      of the cell in the first column its name finds. */
  lemma LeafMeans(uni: Unicode, id: string, leaf: LeafPredicate, all: seq<ColumnEntry>, j: nat, row: Row, server: Server)
    requires LeafRefusals(leaf, DatasetColumns(id, all), BuiltInOperators(), uni) == []
    requires FirstNamed(uni, id, leaf.column, all, j)
    ensures var values := match leaf.value case None => [] case Some(Scalar(text)) => [text] case Some(List(items)) => items;
      LeafValue(DenoteLeaf(leaf, DatasetColumns(id, all), uni, row, server), leaf.op, values, row(all[j].column),
                all[j].dtype, server)
  {
    var columns, values, column := DatasetColumns(id, all), ValueStrings(leaf.value), all[j];
    ValidLeafCompiles(leaf, columns, uni);
    FoundIsFirst(uni, id, leaf.column, all);
    hide BuiltInOperators, LeafRefusals, DatasetColumns, FirstNamed, FindColumn, BindingFor, LeafValue, OperatorNamed,
         DenoteComparison, EvalPositive, DenoteAny;
    var cell, v := row(column.column), DenoteLeaf(leaf, columns, uni, row, server);
    match OperatorNamed(leaf.op) {
      case OpCompare(comparison) =>
        assert values == [values[0]];
        ComparisonNamed(leaf.op, comparison, cell, column.dtype, values[0], server);
      case OpIn =>
        AnyMeans(column, values, row, server);
        Others(leaf.op);
      case OpBetween =>
        Others(leaf.op);
        BetweenIs(values, cell, column.dtype, server);
      case OpContains =>
        Others(leaf.op);
        ContainsIs(values, cell, column.dtype, server);
      case OpIsNull =>
        Others(leaf.op);
        NullIs(values, cell, column.dtype, server);
      case OpIsNotNull =>
        Others(leaf.op);
        NullIs(values, cell, column.dtype, server);
    }
  }

  lemma Others(op: string)
    ensures OperatorNamed(op) == OpIn ==> op == "in"
    ensures OperatorNamed(op) == OpBetween ==> op == "between"
    ensures OperatorNamed(op) == OpContains ==> op == "contains"
    ensures OperatorNamed(op) == OpIsNull ==> op == "is_null"
    ensures OperatorNamed(op) == OpIsNotNull ==> op == "is_not_null"
  {
  }

  lemma BetweenIs(values: seq<string>, cell: Option<string>, dtype: DtypeClass, server: Server)
    requires |values| == 2
    ensures LeafValue(And3(Not3(EvalComparison(Lt, cell, BindingFor(dtype, values[0]), server)),
                           Not3(EvalComparison(Gt, cell, BindingFor(dtype, values[1]), server))),
                      "between", values, cell, dtype, server)
  {
    hide BindingFor;
  }

  lemma ContainsIs(values: seq<string>, cell: Option<string>, dtype: DtypeClass, server: Server)
    requires |values| == 1
    ensures LeafValue(EvalPositive(cell, BindingFor(dtype, values[0]), server), "contains", values, cell, dtype, server)
  {
    hide BindingFor;
  }

  lemma NullIs(values: seq<string>, cell: Option<string>, dtype: DtypeClass, server: Server)
    ensures LeafValue(Known(cell.None?), "is_null", values, cell, dtype, server)
    ensures LeafValue(Known(cell.Some?), "is_not_null", values, cell, dtype, server)
  {
  }

  // ----- the trees -----

  predicate EachIs(ps: seq<PredicateAst>, vs: set<Option<TV>>, columns: seq<ColumnEntry>, uni: Unicode, row: Row,
                   server: Server)
  {
    forall i :: 0 <= i < |ps| ==> Denote(ps[i], columns, uni, row, server) in vs
  }

  predicate OneIs(ps: seq<PredicateAst>, v: TV, columns: seq<ColumnEntry>, uni: Unicode, row: Row, server: Server) {
    exists i :: 0 <= i < |ps| && Denote(ps[i], columns, uni, row, server) == Some(v)
  }

  lemma ListSteps(ps: seq<PredicateAst>, columns: seq<ColumnEntry>, uni: Unicode, row: Row, server: Server)
    requires ps != []
    ensures forall vs :: EachIs(ps, vs, columns, uni, row, server)
                    <==> Denote(ps[0], columns, uni, row, server) in vs && EachIs(ps[1..], vs, columns, uni, row, server)
    ensures forall v :: OneIs(ps, v, columns, uni, row, server)
                   <==> Denote(ps[0], columns, uni, row, server) == Some(v) || OneIs(ps[1..], v, columns, uni, row, server)
  {
    hide Denote;
    assert forall i :: 0 < i < |ps| ==> ps[i] == ps[1..][i - 1];
    assert forall i :: 0 <= i < |ps[1..]| ==> ps[1..][i] == ps[i + 1];
  }

  /** A list of which every child must hold: nothing if no child says anything, true if each
      that does is true, false if one is false. */
  lemma {:induction false} AllMeans(ps: seq<PredicateAst>, columns: seq<ColumnEntry>, uni: Unicode, row: Row, server: Server)
    ensures var v := DenoteAll(ps, columns, uni, row, server);
      && (v.None? <==> EachIs(ps, {None}, columns, uni, row, server))
      && (v in {None, Some(True)} <==> EachIs(ps, {None, Some(True)}, columns, uni, row, server))
      && (v == Some(False) <==> OneIs(ps, False, columns, uni, row, server))
  {
    if ps != [] {
      AllMeans(ps[1..], columns, uni, row, server);
      ListSteps(ps, columns, uni, row, server);
      hide Denote, EachIs, OneIs;
    }
  }

  /** A list of which one child must hold: nothing if no child says anything, true if one is
      true, false if each that says something is false. */
  lemma {:induction false} SomeMeans(ps: seq<PredicateAst>, columns: seq<ColumnEntry>, uni: Unicode, row: Row, server: Server)
    ensures var v := DenoteSome(ps, columns, uni, row, server);
      && (v.None? <==> EachIs(ps, {None}, columns, uni, row, server))
      && (v == Some(True) <==> OneIs(ps, True, columns, uni, row, server))
      && (v in {None, Some(False)} <==> EachIs(ps, {None, Some(False)}, columns, uni, row, server))
  {
    if ps != [] {
      SomeMeans(ps[1..], columns, uni, row, server);
      ListSteps(ps, columns, uni, row, server);
      hide Denote, EachIs, OneIs;
    }
  }

  lemma Meet2(a: Option<TV>, b: Option<TV>)
    ensures Meet(a, b) in {None, Some(True)} <==> a in {None, Some(True)} && b in {None, Some(True)}
  {
  }

  /** What makes three parts, of which each may say nothing, true together or false. */
  lemma Meet3(a: Option<TV>, b: Option<TV>, c: Option<TV>)
    ensures Meet(a, Meet(b, c)) in {None, Some(True)}
        <==> a in {None, Some(True)} && b in {None, Some(True)} && c in {None, Some(True)}
    ensures Meet(a, Meet(b, c)) == Some(False) <==> a == Some(False) || b == Some(False) || c == Some(False)
  {
  }

  lemma CompoundIs(p: PredicateAst, columns: seq<ColumnEntry>, uni: Unicode, row: Row, server: Server)
    requires p.Compound?
    ensures var negated := if p.neg.None? then None else Denote(p.neg.value, columns, uni, row, server);
      Denote(p, columns, uni, row, server)
      == Meet(DenoteAll(p.conj, columns, uni, row, server),
              Meet(DenoteSome(p.disj, columns, uni, row, server),
                   if negated.None? then None else Some(Not3(negated.value))))
  {
  }

  /** A compound is true, or says nothing, when every child of its and list is or does, one
      child of its or list is true or none says anything, and its not child is false or says
      nothing. It is false when an and child is, or every or child that says anything and
      one does, or its not child is true. */
  lemma CompoundMeans(p: PredicateAst, columns: seq<ColumnEntry>, uni: Unicode, row: Row, server: Server)
    requires p.Compound?
    ensures var v := Denote(p, columns, uni, row, server);
            var negated := if p.neg.None? then None else Denote(p.neg.value, columns, uni, row, server);
      && (v in {None, Some(True)} <==>
            && EachIs(p.conj, {None, Some(True)}, columns, uni, row, server)
            && (EachIs(p.disj, {None}, columns, uni, row, server) || OneIs(p.disj, True, columns, uni, row, server))
            && negated in {None, Some(False)})
      && (v == Some(False) <==>
            || OneIs(p.conj, False, columns, uni, row, server)
            || (!EachIs(p.disj, {None}, columns, uni, row, server)
                && EachIs(p.disj, {None, Some(False)}, columns, uni, row, server))
            || negated == Some(True))
  {
    var negated := if p.neg.None? then None else Denote(p.neg.value, columns, uni, row, server);
    hide Denote, DenoteAll, DenoteSome, Meet, EachIs, OneIs;
    CompoundIs(p, columns, uni, row, server);
    Meet3(DenoteAll(p.conj, columns, uni, row, server), DenoteSome(p.disj, columns, uni, row, server),
          if negated.None? then None else Some(Not3(negated.value)));
    AllMeans(p.conj, columns, uni, row, server);
    SomeMeans(p.disj, columns, uni, row, server);
  }

  /** A tree says something exactly when it has a leaf. */
  lemma {:induction false} SaysSomething(p: PredicateAst, columns: seq<ColumnEntry>, uni: Unicode, row: Row, server: Server)
    ensures Denote(p, columns, uni, row, server).Some? <==> Leaves(p) != []
    decreases p, 1
  {
    if p.Compound? {
      EachSaysSomething(p.conj, columns, uni, row, server);
      EachSaysSomething(p.disj, columns, uni, row, server);
      if p.neg.Some? {
        SaysSomething(p.neg.value, columns, uni, row, server);
      }
    }
  }

  lemma {:induction false} EachSaysSomething(ps: seq<PredicateAst>, columns: seq<ColumnEntry>, uni: Unicode, row: Row,
                                             server: Server)
    ensures DenoteAll(ps, columns, uni, row, server).Some? <==> LeavesOfAll(ps) != []
    ensures DenoteSome(ps, columns, uni, row, server).Some? <==> LeavesOfAll(ps) != []
    decreases ps, 0
  {
    if ps != [] {
      SaysSomething(ps[0], columns, uni, row, server);
      EachSaysSomething(ps[1..], columns, uni, row, server);
    }
  }

  // ----- the rows -----

  /** Row `j` is the column of an axis: the first one that the first field of the role finds. */
  ghost predicate IsAxis(uni: Unicode, m: DatasetManifest, role: FieldRole, all: seq<ColumnEntry>, j: nat) {
    exists k: nat :: FirstOfRole(m.fields, role, k) && FirstNamed(uni, m.id, m.fields[k].column, all, j)
  }

  /** The cell of the axis compares with the value as it must; no value, no test. */
  ghost predicate AxisHolds(uni: Unicode, m: DatasetManifest, role: FieldRole, value: Option<string>, op: string,
                            all: seq<ColumnEntry>, row: Row, server: Server)
  {
    value.None?
    || exists j: nat :: IsAxis(uni, m, role, all, j)
                        && var sign := Sign(row(all[j].column), all[j].dtype, value.value, server);
                           sign.Some? && HoldsFor(op, sign.value)
  }

  lemma AxisIs(uni: Unicode, m: DatasetManifest, role: FieldRole, all: seq<ColumnEntry>)
    ensures var found := AxisColumn(m, DatasetColumns(m.id, all), role, uni);
      && (found.Some? ==> exists j: nat :: IsAxis(uni, m, role, all, j))
      && (forall j: nat :: IsAxis(uni, m, role, all, j) ==> found == Some(all[j]))
  {
    hide FindColumn, DatasetColumns, FirstNamed;
    RoleFinds(m.fields, role);
    if FieldByRole(m.fields, role).Some? {
      var k: nat :| FirstOfRole(m.fields, role, k) && FieldByRole(m.fields, role).value == m.fields[k];
      FoundIsFirst(uni, m.id, m.fields[k].column, all);
      if AxisColumn(m, DatasetColumns(m.id, all), role, uni).Some? {
        var j: nat :| FirstNamed(uni, m.id, m.fields[k].column, all, j);
        assert IsAxis(uni, m, role, all, j);
      }
    }
  }

  lemma AxisValueIs(uni: Unicode, m: DatasetManifest, role: FieldRole, value: Option<string>, op: string,
                    outside: Comparison, all: seq<ColumnEntry>, row: Row, server: Server)
    requires (op, outside) in {("eq", Ne), ("gte", Lt), ("lte", Gt)}
    requires value.Some? ==> AxisColumn(m, DatasetColumns(m.id, all), role, uni).Some?
    ensures var v := AxisValue(AxisColumn(m, DatasetColumns(m.id, all), role, uni), value, outside, row, server);
      (v.None? || v == Some(True)) <==> AxisHolds(uni, m, role, value, op, all, row, server)
  {
    hide AxisColumn, DatasetColumns, IsAxis, BindingFor;
    AxisIs(uni, m, role, all);
  }

  lemma SelectedMeans(m: DatasetManifest, all: seq<ColumnEntry>, req: Request, uni: Unicode, row: Row, server: Server)
    requires req.entity.Some? ==> AxisColumn(m, DatasetColumns(m.id, all), EntityKey, uni).Some?
    requires req.from.Some? || req.to.Some? ==> AxisColumn(m, DatasetColumns(m.id, all), TimeIndex, uni).Some?
    ensures Selected(m, DatasetColumns(m.id, all), req, uni, row, server) in {None, Some(True)}
        <==> && AxisHolds(uni, m, EntityKey, req.entity, "eq", all, row, server)
             && AxisHolds(uni, m, TimeIndex, req.from, "gte", all, row, server)
             && AxisHolds(uni, m, TimeIndex, req.to, "lte", all, row, server)
             && (req.filter.None?
                 || Denote(req.filter.value, DatasetColumns(m.id, all), uni, row, server) in {None, Some(True)})
  {
    var columns := DatasetColumns(m.id, all);
    var entity, time := AxisColumn(m, columns, EntityKey, uni), AxisColumn(m, columns, TimeIndex, uni);
    var v1, v2, v3 := AxisValue(entity, req.entity, Ne, row, server), AxisValue(time, req.from, Lt, row, server),
                      AxisValue(time, req.to, Gt, row, server);
    var v4 := if req.filter.None? then None else Denote(req.filter.value, columns, uni, row, server);
    hide DatasetColumns, AxisHolds, AxisColumn, AxisValue, Denote, Meet;
    AxisValueIs(uni, m, EntityKey, req.entity, "eq", Ne, all, row, server);
    AxisValueIs(uni, m, TimeIndex, req.from, "gte", Lt, all, row, server);
    AxisValueIs(uni, m, TimeIndex, req.to, "lte", Gt, all, row, server);
    Meet3(v1, v2, Meet(v3, v4));
    Meet2(v3, v4);
  }

  /** The rows of the answer: those in which the entity cell equals the entity, the time
      cell is not before `from` and not after `to`, and the filter, if it says anything, is
      true; told of each cell by its row in the catalog. */
  lemma RowsKept(m: DatasetManifest, all: seq<ColumnEntry>, req: Request, uni: Unicode, guard: Guard, plan: QueryPlan,
                 row: Row, server: Server)
    requires Plan(m, all, BuiltInOperators(), req, uni, guard) == Ok(plan)
    ensures Lex(plan.sql).Some?
    ensures Read(plan).Some? ==>
              var where := Read(plan).value.where;
              (where.None? || Eval(where.value, row, server) == True)
              <==> && AxisHolds(uni, m, EntityKey, req.entity, "eq", all, row, server)
                   && AxisHolds(uni, m, TimeIndex, req.from, "gte", all, row, server)
                   && AxisHolds(uni, m, TimeIndex, req.to, "lte", all, row, server)
                   && (req.filter.None?
                       || Denote(req.filter.value, DatasetColumns(m.id, all), uni, row, server) in {None, Some(True)})
  {
    hide *;
    var columns := DatasetColumns(m.id, all);
    Accepted(m, all, req, uni, guard, plan);
    AxesFound(m, columns, req, uni);
    SelectedMeans(m, all, req, uni, row, server);
    StatementMeans(m, all, req, uni, guard, plan, row, server);
  }

  lemma StatementMeans(m: DatasetManifest, all: seq<ColumnEntry>, req: Request, uni: Unicode, guard: Guard,
                       plan: QueryPlan, row: Row, server: Server)
    requires Plan(m, all, BuiltInOperators(), req, uni, guard) == Ok(plan)
    ensures Lex(plan.sql).Some?
    ensures Read(plan).Some? ==>
              var where := Read(plan).value.where;
              (where.None? || Eval(where.value, row, server) == True)
              <==> Selected(m, DatasetColumns(m.id, all), req, uni, row, server) in {None, Some(True)}
  {
    hide *;
    PlanMeans(m, all, req, uni, guard, plan, row, server);
    ReadIs(plan);
  }

  lemma AxesFound(m: DatasetManifest, columns: seq<ColumnEntry>, req: Request, uni: Unicode)
    requires Refusals(m, columns, BuiltInOperators(), req, uni) == []
    ensures req.entity.Some? ==> AxisColumn(m, columns, EntityKey, uni).Some?
    ensures req.from.Some? || req.to.Some? ==> AxisColumn(m, columns, TimeIndex, uni).Some?
  {
    hide BuiltInOperators, SelectRefusals, FilterRefusals, RowRefusals, AxisColumn;
  }

  /** The rest of the statement, and the push-down summary: the manifest's object, the time
      asked for, the request's limit or else the manifest's, one axis filter for each axis
      value, and one predicate filter for each leaf. */
  lemma RestOfStatement(m: DatasetManifest, all: seq<ColumnEntry>, req: Request, uni: Unicode, guard: Guard,
                        plan: QueryPlan)
    requires Plan(m, all, BuiltInOperators(), req, uni, guard) == Ok(plan)
    ensures Lex(plan.sql).Some?
    ensures Read(plan).Some? ==>
              var s := Read(plan).value;
              && s.object_ == (m.database, m.schema, m.object_) && s.asOf == req.asOf
              && s.limit == TypedBinding("FIXED", Decimal(if req.limit.Some? then req.limit.value else m.defaultLimit))
              && plan.pushdown.projectedColumns == |s.columns|
    ensures plan.pushdown.axisFilters == (if req.entity.Some? then 1 else 0) + (if req.from.Some? then 1 else 0)
                                         + (if req.to.Some? then 1 else 0)
    ensures plan.pushdown.predicateFilters == |LeavesOf(req.filter)| && plan.pushdown.allPredicatesPushedDown
  {
    var columns := DatasetColumns(m.id, all);
    Accepted(m, all, req, uni, guard, plan);
    AxesFound(m, columns, req, uni);
    if req.filter.Some? {
      TreeRefusals(req.filter.value, columns, BuiltInOperators(), uni);
    }
    PlanMeans(m, all, req, uni, guard, plan, _ => None, Server((_, _) => None, (_, _) => None));
  }
}
