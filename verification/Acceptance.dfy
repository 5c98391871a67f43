// When the planner accepts a request, and with which codes it refuses any other: told by
// the catalog's rows, the operators' names and the numbers of the request.
module Acceptance {
  import opened Prelude
  import opened CatalogModel
  import opened Ordinals
  import opened Predicates
  import opened Shapes
  import opened Planner
  import opened PlanTheorems

  // ----- rows and fields -----

  ghost predicate HasRow(uni: Unicode, id: string, name: string, all: seq<ColumnEntry>) {
    exists i :: 0 <= i < |all| && all[i].datasetId == id && Normalize(uni, all[i].column) == Normalize(uni, name)
  }

  lemma FoundIfRow(uni: Unicode, id: string, name: string, all: seq<ColumnEntry>)
    ensures FindColumn(uni, name, DatasetColumns(id, all)).Some? <==> HasRow(uni, id, name, all)
  {
    hide FindColumn, DatasetColumns, Normalize, FirstNamed;
    FoundIsFirst(uni, id, name, all);
  }

  predicate FirstOfRole(fields: seq<DatasetField>, role: FieldRole, k: nat) {
    k < |fields| && fields[k].role == role && forall i :: 0 <= i < k ==> fields[i].role != role
  }

  /** A role finds the first field that has it. */
  lemma {:induction false} RoleFinds(fields: seq<DatasetField>, role: FieldRole)
    ensures FieldByRole(fields, role).None? <==> forall i :: 0 <= i < |fields| ==> fields[i].role != role
    ensures FieldByRole(fields, role).Some? ==>
              exists k: nat :: FirstOfRole(fields, role, k) && FieldByRole(fields, role).value == fields[k]
  {
    if fields != [] {
      if fields[0].role == role {
        assert FirstOfRole(fields, role, 0);
      } else {
        RoleFinds(fields[1..], role);
        forall i | 0 <= i < |fields[1..]|
          ensures fields[1..][i] == fields[i + 1]
        {
        }
        if FieldByRole(fields, role).Some? {
          var k: nat :| FirstOfRole(fields[1..], role, k) && FieldByRole(fields, role).value == fields[1..][k];
          assert FirstOfRole(fields, role, k + 1) && fields[k + 1] == fields[1..][k];
        } else {
          assert forall i :: 0 < i < |fields| ==> fields[i] == fields[1..][i - 1];
        }
      }
    }
  }

  /** The first field of the role names a column that the catalog lists. */
  ghost predicate HasAxis(uni: Unicode, m: DatasetManifest, role: FieldRole, all: seq<ColumnEntry>) {
    exists k: nat :: FirstOfRole(m.fields, role, k) && HasRow(uni, m.id, m.fields[k].column, all)
  }

  lemma AxisIfField(uni: Unicode, m: DatasetManifest, role: FieldRole, all: seq<ColumnEntry>)
    ensures AxisColumn(m, DatasetColumns(m.id, all), role, uni).Some? <==> HasAxis(uni, m, role, all)
  {
    RoleFinds(m.fields, role);
    hide FindColumn, DatasetColumns, HasRow, FieldByRole;
    if FieldByRole(m.fields, role).Some? {
      FoundIfRow(uni, m.id, FieldByRole(m.fields, role).value.column, all);
    }
  }

  // ----- operators -----

  predicate KnownOperator(op: string) {
    op == "eq" || op == "neq" || op == "lt" || op == "lte" || op == "gt" || op == "gte" || op == "between"
    || op == "in" || op == "is_null" || op == "is_not_null" || op == "contains"
  }

  predicate TypeFits(op: string, dtype: DtypeClass) {
    if op == "is_null" || op == "is_not_null" then true
    else if op == "contains" then dtype == StringClass
    else if op == "eq" || op == "neq" || op == "in" then dtype != Variant && dtype != UnknownClass
    else dtype == Number || dtype == Date || dtype == Time || dtype == Timestamp
  }

  predicate CountFits(op: string, value: Option<Value>) {
    var list := value.Some? && value.value.List?;
    if op == "is_null" || op == "is_not_null" then value.None? || (list && value.value.items == [])
    else if op == "in" then value.Some? && (list ==> 1 <= |value.value.items| <= 100)
    else if op == "between" then list && |value.value.items| == 2
    else value.Some? && (list ==> |value.value.items| == 1)
  }

  lemma FirstRows(i: nat, dtype: DtypeClass, value: Option<Value>)
    requires i < 6
    ensures |BuiltInOperators()| == 11
    ensures var e := BuiltInOperators()[i];
      && KnownOperator(e.id)
      && (dtype in e.accepted <==> TypeFits(e.id, dtype))
      && (Accepts(e.arity, ValueCount(value)) <==> CountFits(e.id, value))
  {
    assert i == 0 || i == 1 || i == 2 || i == 3 || i == 4 || i == 5;
  }

  lemma LastRows(i: nat, dtype: DtypeClass, value: Option<Value>)
    requires 6 <= i < 11
    ensures |BuiltInOperators()| == 11
    ensures var e := BuiltInOperators()[i];
      && KnownOperator(e.id)
      && (dtype in e.accepted <==> TypeFits(e.id, dtype))
      && (Accepts(e.arity, ValueCount(value)) <==> CountFits(e.id, value))
  {
    assert i == 6 || i == 7 || i == 8 || i == 9 || i == 10;
    assert SCALAR + {Variant, UnknownClass} == {StringClass, Number, Boolean, Date, Time, Timestamp, Binary, Variant,
                                                UnknownClass};
  }

  lemma BuiltInRow(i: nat, dtype: DtypeClass, value: Option<Value>)
    requires i < |BuiltInOperators()|
    ensures var e := BuiltInOperators()[i];
      && KnownOperator(e.id)
      && (dtype in e.accepted <==> TypeFits(e.id, dtype))
      && (Accepts(e.arity, ValueCount(value)) <==> CountFits(e.id, value))
  {
    hide *;
    FirstRows(0, dtype, value);
    if i < 6 {
      FirstRows(i, dtype, value);
    } else {
      LastRows(i, dtype, value);
    }
  }

  lemma {:induction false} FindsEvery(id: string, operators: seq<OperatorEntry>, i: nat)
    requires i < |operators| && operators[i].id == id
    ensures FindOperator(id, operators).Some?
  {
    if operators[0].id != id {
      FindsEvery(id, operators[1..], i - 1);
    }
  }

  lemma EveryKnown(op: string)
    requires KnownOperator(op)
    ensures exists i: nat :: i < |BuiltInOperators()| && BuiltInOperators()[i].id == op
  {
    var all := BuiltInOperators();
    assert all[0].id == "eq" && all[1].id == "neq" && all[2].id == "lt" && all[3].id == "lte" && all[4].id == "gt"
      && all[5].id == "gte" && all[6].id == "between" && all[7].id == "in" && all[8].id == "is_null"
      && all[9].id == "is_not_null" && all[10].id == "contains";
  }

  /** The operator catalog, by name: which operators there are, which column types each
      takes, and how many values. */
  lemma OperatorTakes(op: string, dtype: DtypeClass, value: Option<Value>)
    ensures var e := FindOperator(op, BuiltInOperators());
      && (e.Some? <==> KnownOperator(op))
      && (e.Some? ==> && e.value.id == op
                      && (dtype in e.value.accepted <==> TypeFits(op, dtype))
                      && (Accepts(e.value.arity, ValueCount(value)) <==> CountFits(op, value)))
  {
    hide BuiltInOperators, FindOperator, KnownOperator, TypeFits, CountFits, Accepts, ValueCount;
    var e := FindOperator(op, BuiltInOperators());
    if e.Some? {
      var i :| 0 <= i < |BuiltInOperators()| && BuiltInOperators()[i] == e.value;
      BuiltInRow(i, dtype, value);
    }
    if KnownOperator(op) {
      EveryKnown(op);
      var i: nat :| i < |BuiltInOperators()| && BuiltInOperators()[i].id == op;
      FindsEvery(op, BuiltInOperators(), i);
    }
  }

  // ----- leaves -----

  /** What is wrong with a leaf. A fault of type or of count is told only of a leaf whose
      column and operator are known. */
  ghost predicate Faulty(code: RefusalCode, uni: Unicode, id: string, leaf: LeafPredicate, all: seq<ColumnEntry>) {
    match code
    case ColumnUnknown => !HasRow(uni, id, leaf.column, all)
    case OperatorUnknown => !KnownOperator(leaf.op)
    case FilterArity => HasRow(uni, id, leaf.column, all) && KnownOperator(leaf.op) && !CountFits(leaf.op, leaf.value)
    case FilterOperatorDtype =>
      KnownOperator(leaf.op)
      && exists j: nat :: FirstNamed(uni, id, leaf.column, all, j) && !TypeFits(leaf.op, all[j].dtype)
  }

  predicate Reports(rs: seq<PredicateRefusal>, code: RefusalCode) {
    exists i :: 0 <= i < |rs| && rs[i].code == code
  }

  /** A leaf is refused with a code exactly when it has that fault. */
  lemma LeafRefusedFor(code: RefusalCode, uni: Unicode, id: string, leaf: LeafPredicate, all: seq<ColumnEntry>)
    ensures Reports(LeafRefusals(leaf, DatasetColumns(id, all), BuiltInOperators(), uni), code)
        <==> Faulty(code, uni, id, leaf, all)
  {
    var columns := DatasetColumns(id, all);
    var found := FindColumn(uni, leaf.column, columns);
    LeafFaults(code, leaf, columns, BuiltInOperators(), uni);
    hide LeafRefusals, FindColumn, DatasetColumns, FindOperator, BuiltInOperators, Normalize, FirstNamed, HasRow,
         KnownOperator, TypeFits, CountFits, Accepts, ValueCount, Reports;
    FoundIfRow(uni, id, leaf.column, all);
    FoundIsFirst(uni, id, leaf.column, all);
    OperatorTakes(leaf.op, if found.Some? then found.value.dtype else Number, leaf.value);
  }

  lemma LeafFaults(code: RefusalCode, leaf: LeafPredicate, columns: seq<ColumnEntry>, operators: seq<OperatorEntry>,
                   uni: Unicode)
    ensures var column, operator := FindColumn(uni, leaf.column, columns), FindOperator(leaf.op, operators);
      Reports(LeafRefusals(leaf, columns, operators, uni), code)
      <==> match code
           case ColumnUnknown => column.None?
           case OperatorUnknown => operator.None?
           case FilterArity =>
             column.Some? && operator.Some? && !Accepts(operator.value.arity, ValueCount(leaf.value))
           case FilterOperatorDtype =>
             column.Some? && operator.Some? && column.value.dtype !in operator.value.accepted
  {
    hide FindColumn, FindOperator, Accepts, ValueCount;
    var rs := LeafRefusals(leaf, columns, operators, uni);
    assert |rs| == 0 || |rs| == 1 || |rs| == 2;
    assert Reports(rs, code) <==> (|rs| > 0 && rs[0].code == code) || (|rs| > 1 && rs[1].code == code);
  }

  // ----- trees -----

  /** The leaves of a tree, from left to right. */
  function Leaves(p: PredicateAst): seq<LeafPredicate>
    decreases p, 1
  {
    match p
    case Single(leaf) => [leaf]
    case Compound(conj, disj, neg) =>
      LeavesOfAll(conj) + LeavesOfAll(disj) + match neg case None => [] case Some(n) => Leaves(n)
  }

  function LeavesOfAll(ps: seq<PredicateAst>): seq<LeafPredicate>
    decreases ps, 0
  {
    if ps == [] then [] else Leaves(ps[0]) + LeavesOfAll(ps[1..])
  }

  function LeavesOf(filter: Option<PredicateAst>): seq<LeafPredicate> {
    match filter
    case None => []
    case Some(p) => Leaves(p)
  }

  function RefusalsOfLeaves(leaves: seq<LeafPredicate>, columns: seq<ColumnEntry>, operators: seq<OperatorEntry>,
                            uni: Unicode): seq<PredicateRefusal>
  {
    if leaves == [] then [] else LeafRefusals(leaves[0], columns, operators, uni)
                                 + RefusalsOfLeaves(leaves[1..], columns, operators, uni)
  }

  lemma {:induction false} RefusalsConcat(a: seq<LeafPredicate>, b: seq<LeafPredicate>, columns: seq<ColumnEntry>,
                                          operators: seq<OperatorEntry>, uni: Unicode)
    ensures RefusalsOfLeaves(a + b, columns, operators, uni)
         == RefusalsOfLeaves(a, columns, operators, uni) + RefusalsOfLeaves(b, columns, operators, uni)
  {
    hide LeafRefusals;
    if a == [] {
      assert a + b == b;
    } else {
      assert (a + b)[1..] == a[1..] + b;
      RefusalsConcat(a[1..], b, columns, operators, uni);
    }
  }

  /** A tree is refused with what its leaves are refused with, from left to right. */
  lemma {:induction false} TreeRefusals(p: PredicateAst, columns: seq<ColumnEntry>, operators: seq<OperatorEntry>,
                                        uni: Unicode)
    ensures NodeRefusals(p, columns, operators, uni) == RefusalsOfLeaves(Leaves(p), columns, operators, uni)
    ensures LeafCount(p) == |Leaves(p)|
    decreases p, 1
  {
    hide LeafRefusals;
    match p {
      case Single(leaf) =>
        assert [leaf][1..] == [];
        assert LeafRefusals(leaf, columns, operators, uni) + [] == LeafRefusals(leaf, columns, operators, uni);
      case Compound(conj, disj, neg) =>
        TreesRefusals(conj, columns, operators, uni);
        TreesRefusals(disj, columns, operators, uni);
        if neg.Some? {
          TreeRefusals(neg.value, columns, operators, uni);
        }
        RefusalsConcat(LeavesOfAll(conj), LeavesOfAll(disj), columns, operators, uni);
        RefusalsConcat(LeavesOfAll(conj) + LeavesOfAll(disj), LeavesOf(neg), columns, operators, uni);
    }
  }

  lemma {:induction false} TreesRefusals(ps: seq<PredicateAst>, columns: seq<ColumnEntry>,
                                         operators: seq<OperatorEntry>, uni: Unicode)
    ensures ManyRefusals(ps, columns, operators, uni) == RefusalsOfLeaves(LeavesOfAll(ps), columns, operators, uni)
    ensures LeafCounts(ps) == |LeavesOfAll(ps)|
    decreases ps, 0
  {
    hide LeafRefusals;
    if ps != [] {
      TreeRefusals(ps[0], columns, operators, uni);
      TreesRefusals(ps[1..], columns, operators, uni);
      RefusalsConcat(Leaves(ps[0]), LeavesOfAll(ps[1..]), columns, operators, uni);
    }
  }

  lemma ReportsEither(a: seq<PredicateRefusal>, b: seq<PredicateRefusal>, code: RefusalCode)
    ensures Reports(a + b, code) <==> Reports(a, code) || Reports(b, code)
  {
    if Reports(a, code) {
      var i :| 0 <= i < |a| && a[i].code == code;
      assert (a + b)[i] == a[i];
    }
    if Reports(b, code) {
      var i :| 0 <= i < |b| && b[i].code == code;
      assert (a + b)[|a| + i] == b[i];
    }
  }

  ghost predicate SomeFaulty(code: RefusalCode, uni: Unicode, id: string, leaves: seq<LeafPredicate>,
                             all: seq<ColumnEntry>)
  {
    exists k :: 0 <= k < |leaves| && Faulty(code, uni, id, leaves[k], all)
  }

  lemma {:induction false} LeavesRefusedFor(code: RefusalCode, uni: Unicode, id: string, leaves: seq<LeafPredicate>,
                                            all: seq<ColumnEntry>)
    ensures Reports(RefusalsOfLeaves(leaves, DatasetColumns(id, all), BuiltInOperators(), uni), code)
        <==> SomeFaulty(code, uni, id, leaves, all)
  {
    hide LeafRefusals, DatasetColumns, BuiltInOperators, Faulty;
    if leaves != [] {
      var columns, operators := DatasetColumns(id, all), BuiltInOperators();
      LeafRefusedFor(code, uni, id, leaves[0], all);
      LeavesRefusedFor(code, uni, id, leaves[1..], all);
      ReportsEither(LeafRefusals(leaves[0], columns, operators, uni), RefusalsOfLeaves(leaves[1..], columns, operators, uni),
                    code);
      SomeStep(code, uni, id, leaves, all);
    }
  }

  lemma SomeStep(code: RefusalCode, uni: Unicode, id: string, leaves: seq<LeafPredicate>, all: seq<ColumnEntry>)
    requires leaves != []
    ensures SomeFaulty(code, uni, id, leaves, all)
        <==> Faulty(code, uni, id, leaves[0], all) || SomeFaulty(code, uni, id, leaves[1..], all)
  {
    hide Faulty;
    if SomeFaulty(code, uni, id, leaves[1..], all) {
      var k :| 0 <= k < |leaves[1..]| && Faulty(code, uni, id, leaves[1..][k], all);
      assert leaves[k + 1] == leaves[1..][k];
    }
    if SomeFaulty(code, uni, id, leaves, all) && !Faulty(code, uni, id, leaves[0], all) {
      var k :| 0 <= k < |leaves| && Faulty(code, uni, id, leaves[k], all);
      assert leaves[k] == leaves[1..][k - 1];
    }
  }

  // ----- requests -----

  /** What is wrong with a request, by the code it is refused with. */
  ghost predicate Wrong(code: PlanRefusal, m: DatasetManifest, all: seq<ColumnEntry>, req: Request, uni: Unicode) {
    var leaves := LeavesOf(req.filter);
    var limit := if req.limit.Some? then req.limit.value else m.defaultLimit;
    || (code == PlanRefusal("FSNOW_COLUMN_UNKNOWN")
        && (|| (exists i :: 0 <= i < |req.select| && !HasRow(uni, m.id, req.select[i], all))
            || (req.entity.Some? && !HasAxis(uni, m, EntityKey, all))
            || ((req.from.Some? || req.to.Some?) && !HasAxis(uni, m, TimeIndex, all))
            || SomeFaulty(ColumnUnknown, uni, m.id, leaves, all)))
    || (code == PlanRefusal("FSNOW_AS_OF_UNSUPPORTED")
        && req.asOf.Some?
        && forall i :: 0 <= i < |m.fields| ==> m.fields[i].role != KnownAt && m.fields[i].role != TimeIndex)
    || (code == PlanRefusal("FSNOW_OPERATOR_UNKNOWN") && SomeFaulty(OperatorUnknown, uni, m.id, leaves, all))
    || (code == PlanRefusal("FSNOW_FILTER_ARITY") && SomeFaulty(FilterArity, uni, m.id, leaves, all))
    || (code == PlanRefusal("FSNOW_FILTER_OPERATOR_DTYPE")
        && SomeFaulty(FilterOperatorDtype, uni, m.id, leaves, all))
    || (code == PlanRefusal("FSNOW_RESULT_TOO_LARGE")
        && !req.exportMode && (limit > m.maxRowsWithoutExport || (limit > 10_000 && !req.confirmed)))
  }

  lemma {:induction false} SelectRefusedFor(code: PlanRefusal, select: seq<string>, id: string, all: seq<ColumnEntry>,
                                            uni: Unicode)
    ensures code in SelectRefusals(select, DatasetColumns(id, all), uni)
        <==> code == COLUMN_UNKNOWN && exists i :: 0 <= i < |select| && !HasRow(uni, id, select[i], all)
  {
    hide FindColumn, DatasetColumns, HasRow;
    if select != [] {
      SelectRefusedFor(code, select[1..], id, all, uni);
      FoundIfRow(uni, id, select[0], all);
      assert forall i :: 0 < i < |select| ==> select[i] == select[1..][i - 1];
      assert forall i :: 0 <= i < |select[1..]| ==> select[1..][i] == select[i + 1];
    }
  }

  lemma AxesRefusedFor(code: PlanRefusal, m: DatasetManifest, all: seq<ColumnEntry>, req: Request, uni: Unicode)
    ensures code in AxisRefusals(m, DatasetColumns(m.id, all), req, uni)
        <==> || (code == COLUMN_UNKNOWN
                 && (|| (req.entity.Some? && !HasAxis(uni, m, EntityKey, all))
                     || ((req.from.Some? || req.to.Some?) && !HasAxis(uni, m, TimeIndex, all))))
             || (code == AS_OF_UNSUPPORTED && req.asOf.Some?
                 && forall i :: 0 <= i < |m.fields| ==> m.fields[i].role != KnownAt && m.fields[i].role != TimeIndex)
  {
    hide AxisColumn, DatasetColumns, HasAxis, FieldByRole;
    AxisIfField(uni, m, EntityKey, all);
    AxisIfField(uni, m, TimeIndex, all);
    RoleFinds(m.fields, KnownAt);
    RoleFinds(m.fields, TimeIndex);
  }

  lemma FilterRefusedFor(code: PlanRefusal, m: DatasetManifest, all: seq<ColumnEntry>, req: Request, uni: Unicode)
    ensures code in FilterRefusals(DatasetColumns(m.id, all), BuiltInOperators(), req, uni)
        <==> exists c :: PlanCode(c) == code && SomeFaulty(c, uni, m.id, LeavesOf(req.filter), all)
  {
    hide DatasetColumns, BuiltInOperators, Faulty, NodeRefusals, Leaves, PlanCode;
    if req.filter.Some? {
      var columns, p := DatasetColumns(m.id, all), req.filter.value;
      var rs := NodeRefusals(p, columns, BuiltInOperators(), uni);
      TreeRefusals(p, columns, BuiltInOperators(), uni);
      forall c
        ensures Reports(rs, c) <==> SomeFaulty(c, uni, m.id, Leaves(p), all)
      {
        LeavesRefusedFor(c, uni, m.id, Leaves(p), all);
      }
      hide SomeFaulty;
      CodesOf(code, columns, req, uni, rs);
    }
  }

  lemma CodesOf(code: PlanRefusal, columns: seq<ColumnEntry>, req: Request, uni: Unicode, rs: seq<PredicateRefusal>)
    requires req.filter.Some? && rs == NodeRefusals(req.filter.value, columns, BuiltInOperators(), uni)
    ensures code in FilterRefusals(columns, BuiltInOperators(), req, uni)
        <==> exists c :: PlanCode(c) == code && Reports(rs, c)
  {
    hide NodeRefusals, BuiltInOperators, PlanCode;
    var fs := FilterRefusals(columns, BuiltInOperators(), req, uni);
    if code in fs {
      var i :| 0 <= i < |fs| && fs[i] == code;
      assert Reports(rs, rs[i].code);
    }
    if c :| PlanCode(c) == code && Reports(rs, c) {
      var i :| 0 <= i < |rs| && rs[i].code == c;
      assert fs[i] == code;
    }
  }

  lemma RowsRefusedFor(code: PlanRefusal, m: DatasetManifest, req: Request)
    ensures var limit := if req.limit.Some? then req.limit.value else m.defaultLimit;
      code in RowRefusals(m, req)
      <==> code == RESULT_TOO_LARGE && !req.exportMode
           && (limit > m.maxRowsWithoutExport || (limit > 10_000 && !req.confirmed))
  {
  }

  lemma Codes()
    ensures forall c :: PlanCode(c) == match c
                                       case ColumnUnknown => PlanRefusal("FSNOW_COLUMN_UNKNOWN")
                                       case OperatorUnknown => PlanRefusal("FSNOW_OPERATOR_UNKNOWN")
                                       case FilterArity => PlanRefusal("FSNOW_FILTER_ARITY")
                                       case FilterOperatorDtype => PlanRefusal("FSNOW_FILTER_OPERATOR_DTYPE")
    ensures COLUMN_UNKNOWN == PlanRefusal("FSNOW_COLUMN_UNKNOWN")
    ensures AS_OF_UNSUPPORTED == PlanRefusal("FSNOW_AS_OF_UNSUPPORTED")
    ensures RESULT_TOO_LARGE == PlanRefusal("FSNOW_RESULT_TOO_LARGE")
  {
  }

  /** A request is refused with a code exactly when that is wrong with it. */
  lemma RefusedFor(code: PlanRefusal, m: DatasetManifest, all: seq<ColumnEntry>, req: Request, uni: Unicode)
    ensures code in Refusals(m, DatasetColumns(m.id, all), BuiltInOperators(), req, uni)
        <==> Wrong(code, m, all, req, uni)
  {
    hide DatasetColumns, BuiltInOperators, SelectRefusals, AxisRefusals, FilterRefusals, RowRefusals, PlanCode, HasRow,
         HasAxis, SomeFaulty, LeavesOf;
    SelectRefusedFor(code, req.select, m.id, all, uni);
    AxesRefusedFor(code, m, all, req, uni);
    FilterRefusedFor(code, m, all, req, uni);
    RowsRefusedFor(code, m, req);
    Codes();
  }

  /** The planner's answer, with the built-in operators and a safety step that refuses
      nothing: a plan exactly when the dataset is the manifest's and nothing is wrong. */
  lemma AcceptedWhenNothingIsWrong(m: DatasetManifest, all: seq<ColumnEntry>, req: Request, uni: Unicode, guard: Guard)
    requires forall sql: string, limit: nat :: guard(sql, limit) == None
    ensures Plan(m, all, BuiltInOperators(), req, uni, guard).Ok?
        <==> m.id == req.datasetId && forall code :: !Wrong(code, m, all, req, uni)
    ensures m.id != req.datasetId ==>
              Plan(m, all, BuiltInOperators(), req, uni, guard) == Err([PlanRefusal("FSNOW_DATASET_UNKNOWN")])
    ensures m.id == req.datasetId && Plan(m, all, BuiltInOperators(), req, uni, guard).Err? ==>
              forall code :: code in Plan(m, all, BuiltInOperators(), req, uni, guard).error <==> Wrong(code, m, all, req, uni)
  {
    var rs := Refusals(m, DatasetColumns(m.id, all), BuiltInOperators(), req, uni);
    hide DatasetColumns, BuiltInOperators, Wrong, Refusals, PlanPieces, Projection, FilterShape, AxisTests;
    forall code
      ensures code in rs <==> Wrong(code, m, all, req, uni)
    {
      RefusedFor(code, m, all, req, uni);
    }
    if rs == [] && m.id == req.datasetId {
      ValidationImpliesCompilation(m, all, req, uni, guard);
    } else {
      assert rs != [] ==> rs[0] in rs;
    }
  }

  // ----- the refusals, one after the other -----

  /** The requested names that the catalog does not list, by position. */
  ghost function Unlisted(uni: Unicode, id: string, names: seq<string>, all: seq<ColumnEntry>): set<nat> {
    set i: nat | i < |names| && !HasRow(uni, id, names[i], all)
  }

  function Times(n: nat, code: PlanRefusal): seq<PlanRefusal> {
    seq(n, _ => code)
  }

  lemma UnlistedLast(uni: Unicode, id: string, names: seq<string>, all: seq<ColumnEntry>)
    requires names != []
    ensures var last := names[|names| - 1];
      |Unlisted(uni, id, names, all)|
      == |Unlisted(uni, id, names[..|names| - 1], all)| + if HasRow(uni, id, last, all) then 0 else 1
  {
    hide HasRow;
    var n := |names| - 1;
    assert Unlisted(uni, id, names, all)
        == Unlisted(uni, id, names[..n], all) + if HasRow(uni, id, names[n], all) then {} else {n};
  }

  lemma {:induction false} SelectLast(select: seq<string>, columns: seq<ColumnEntry>, uni: Unicode)
    requires select != []
    ensures SelectRefusals(select, columns, uni)
         == SelectRefusals(select[..|select| - 1], columns, uni)
            + if FindColumn(uni, select[|select| - 1], columns).None? then [COLUMN_UNKNOWN] else []
  {
    hide FindColumn;
    var n := |select| - 1;
    if n == 0 {
      assert select[..0] == [] && select[1..] == [];
    } else {
      SelectLast(select[1..], columns, uni);
      assert select[1..][..n - 1] == select[..n][1..];
    }
  }

  lemma {:induction false} SelectList(select: seq<string>, id: string, all: seq<ColumnEntry>, uni: Unicode)
    ensures SelectRefusals(select, DatasetColumns(id, all), uni)
         == Times(|Unlisted(uni, id, select, all)|, PlanRefusal("FSNOW_COLUMN_UNKNOWN"))
    decreases |select|
  {
    if select == [] {
      assert Unlisted(uni, id, select, all) == {};
    } else {
      hide *;
      var n := |select| - 1;
      SelectList(select[..n], id, all, uni);
      SelectLast(select, DatasetColumns(id, all), uni);
      UnlistedLast(uni, id, select, all);
      FoundIfRow(uni, id, select[n], all);
      TimesNext(|Unlisted(uni, id, select[..n], all)|, PlanRefusal("FSNOW_COLUMN_UNKNOWN"));
      Codes();
      assert SelectRefusals(select[..n], DatasetColumns(id, all), uni) + []
          == SelectRefusals(select[..n], DatasetColumns(id, all), uni);
    }
  }

  lemma TimesNext(n: nat, code: PlanRefusal)
    ensures Times(n + 1, code) == Times(n, code) + [code]
  {
  }

  /** The refusals of a request in their order: one for each requested name that the
      catalog does not list, one for each axis without a column, one for time travel that
      the dataset does not support, those of the leaves from left to right, and those of the
      row limit. */
  lemma RefusalList(m: DatasetManifest, all: seq<ColumnEntry>, req: Request, uni: Unicode)
    ensures var columns := DatasetColumns(m.id, all);
            var leaves := RefusalsOfLeaves(LeavesOf(req.filter), columns, BuiltInOperators(), uni);
            var limit := if req.limit.Some? then req.limit.value else m.defaultLimit;
      Refusals(m, columns, BuiltInOperators(), req, uni)
      == Times(|Unlisted(uni, m.id, req.select, all)|, PlanRefusal("FSNOW_COLUMN_UNKNOWN"))
         + ((if req.entity.Some? && !HasAxis(uni, m, EntityKey, all) then [PlanRefusal("FSNOW_COLUMN_UNKNOWN")] else [])
            + (if (req.from.Some? || req.to.Some?) && !HasAxis(uni, m, TimeIndex, all)
               then [PlanRefusal("FSNOW_COLUMN_UNKNOWN")] else [])
            + (if req.asOf.Some?
                  && (forall i :: 0 <= i < |m.fields| ==> m.fields[i].role != KnownAt && m.fields[i].role != TimeIndex)
               then [PlanRefusal("FSNOW_AS_OF_UNSUPPORTED")] else []))
         + seq(|leaves|, i requires 0 <= i < |leaves| => PlanCode(leaves[i].code))
         + ((if !req.exportMode && !req.confirmed && (limit > m.maxRowsWithoutExport || limit > 10_000)
             then [PlanRefusal("FSNOW_RESULT_TOO_LARGE")] else [])
            + (if !req.exportMode && limit > m.maxRowsWithoutExport then [PlanRefusal("FSNOW_RESULT_TOO_LARGE")] else []))
  {
    hide DatasetColumns, BuiltInOperators, SelectRefusals, AxisColumn, FieldByRole, FilterRefusals, PlanCode, HasRow,
         HasAxis, LeavesOf, RefusalsOfLeaves, Unlisted, Times;
    SelectList(req.select, m.id, all, uni);
    AxisIfField(uni, m, EntityKey, all);
    AxisIfField(uni, m, TimeIndex, all);
    RoleFinds(m.fields, KnownAt);
    RoleFinds(m.fields, TimeIndex);
    FilterList(DatasetColumns(m.id, all), req, uni);
    Codes();
  }

  lemma FilterList(columns: seq<ColumnEntry>, req: Request, uni: Unicode)
    ensures var leaves := RefusalsOfLeaves(LeavesOf(req.filter), columns, BuiltInOperators(), uni);
      FilterRefusals(columns, BuiltInOperators(), req, uni)
      == seq(|leaves|, i requires 0 <= i < |leaves| => PlanCode(leaves[i].code))
  {
    hide BuiltInOperators, PlanCode, NodeRefusals, Leaves, LeafRefusals;
    if req.filter.Some? {
      TreeRefusals(req.filter.value, columns, BuiltInOperators(), uni);
    }
  }

  /** The refusals of a leaf in their order: an unknown column, then an unknown operator,
      by the names in the request; or else the number of values, then the type, by the
      names in the catalogs. */
  lemma LeafRefusalList(uni: Unicode, id: string, leaf: LeafPredicate, all: seq<ColumnEntry>, j: nat)
    requires HasRow(uni, id, leaf.column, all) ==> FirstNamed(uni, id, leaf.column, all, j)
    ensures LeafRefusals(leaf, DatasetColumns(id, all), BuiltInOperators(), uni)
         == if !HasRow(uni, id, leaf.column, all) || !KnownOperator(leaf.op) then
              (if !HasRow(uni, id, leaf.column, all) then [PredicateRefusal(ColumnUnknown, leaf.column, leaf.op)] else [])
              + (if !KnownOperator(leaf.op) then [PredicateRefusal(OperatorUnknown, leaf.column, leaf.op)] else [])
            else
              (if !CountFits(leaf.op, leaf.value) then [PredicateRefusal(FilterArity, all[j].column, leaf.op)] else [])
              + (if !TypeFits(leaf.op, all[j].dtype) then [PredicateRefusal(FilterOperatorDtype, all[j].column, leaf.op)]
                 else [])
  {
    var found := FindColumn(uni, leaf.column, DatasetColumns(id, all));
    hide FindColumn, DatasetColumns, FindOperator, BuiltInOperators, Normalize, FirstNamed, HasRow,
         KnownOperator, TypeFits, CountFits, Accepts, ValueCount;
    FoundIfRow(uni, id, leaf.column, all);
    FoundIsFirst(uni, id, leaf.column, all);
    OperatorTakes(leaf.op, if found.Some? then found.value.dtype else Number, leaf.value);
  }
}
