// What a WHERE condition means: SQL's three-valued logic (section 8.12 of
// ISO/IEC 9075:1992) and a recursive-descent parser with NOT over AND over OR
// in which BETWEEN owns its inner AND. The parser reads tokens only; each `?`
// it meets takes the next positional binding.
module SqlMeaning {
  import opened Prelude
  import opened SqlText

  // ----- three-valued logic -----

  datatype TV = False | Unknown | True

  function And3(a: TV, b: TV): TV {
    if a == False || b == False then False else if a == True then b else Unknown
  }

  function Or3(a: TV, b: TV): TV {
    if a == True || b == True then True else if a == False then b else Unknown
  }

  function Not3(a: TV): TV {
    match a
    case False => True
    case Unknown => Unknown
    case True => False
  }

  function Known(b: bool): TV {
    if b then True else False
  }

  // ----- tests on one row -----

  datatype Comparison = Eq | Ne | Lt | Le | Gt | Ge

  datatype Test =
    | Compare(column: string, op: Comparison, operand: TypedBinding)
    | Between(column: string, low: TypedBinding, high: TypedBinding)
    | InList(column: string, operands: seq<TypedBinding>)
    | IsNull(column: string, negated: bool)
    | Contains(column: string, needle: TypedBinding)

  /** A cell is NULL (`None`) or a value. */
  type Row = string -> Option<string>

  /** How the server orders a value against a binding (`None`: incomparable) and
      at which 1-based position it finds a binding in a value (0: nowhere). */
  datatype Server = Server(order: (string, TypedBinding) -> Option<int>, position: (TypedBinding, string) -> Option<nat>)

  function EvalComparison(op: Comparison, cell: Option<string>, b: TypedBinding, server: Server): TV {
    if cell.None? then Unknown
    else
      match server.order(cell.value, b)
      case None => Unknown
      case Some(sign) =>
        match op
        case Eq => Known(sign == 0)
        case Ne => Known(sign != 0)
        case Lt => Known(sign < 0)
        case Le => Known(sign <= 0)
        case Gt => Known(sign > 0)
        case Ge => Known(sign >= 0)
  }

  /** `x IN (a, b, ...)` is `x = a OR x = b OR ...`. */
  function EvalIn(cell: Option<string>, bs: seq<TypedBinding>, server: Server): TV {
    if bs == [] then False
    else Or3(EvalComparison(Eq, cell, bs[0], server), EvalIn(cell, bs[1..], server))
  }

  function EvalPositive(cell: Option<string>, b: TypedBinding, server: Server): TV {
    if cell.None? then Unknown
    else
      match server.position(b, cell.value)
      case None => Unknown
      case Some(n) => Known(n > 0)
  }

  function EvalTest(t: Test, row: Row, server: Server): TV {
    var cell := row(t.column);
    match t
    case Compare(_, op, b) => EvalComparison(op, cell, b, server)
    case Between(_, low, high) =>
      And3(EvalComparison(Ge, cell, low, server), EvalComparison(Le, cell, high, server))
    case InList(_, bs) => EvalIn(cell, bs, server)
    case IsNull(_, negated) => Known(cell.None? != negated)
    case Contains(_, b) => EvalPositive(cell, b, server)
  }

  datatype Cond = Or(left: Cond, right: Cond) | And(left: Cond, right: Cond) | Not(inner: Cond) | Atom(test: Test)

  function Eval(c: Cond, row: Row, server: Server): TV {
    match c
    case Or(a, b) => Or3(Eval(a, row, server), Eval(b, row, server))
    case And(a, b) => And3(Eval(a, row, server), Eval(b, row, server))
    case Not(a) => Not3(Eval(a, row, server))
    case Atom(t) => EvalTest(t, row, server)
  }

  // ----- the parser -----

  datatype Parsed<+T> = Fail | Done(value: T, rest: seq<Tok>, bindings: seq<TypedBinding>)

  function ComparisonOf(text: string): Option<Comparison> {
    if text == "=" then Some(Eq)
    else if text == "!=" then Some(Ne)
    else if text == "<" then Some(Lt)
    else if text == "<=" then Some(Le)
    else if text == ">" then Some(Gt)
    else if text == ">=" then Some(Ge)
    else None
  }

  function ParseParams(ts: seq<Tok>, bs: seq<TypedBinding>): (r: Parsed<seq<TypedBinding>>)
    ensures r.Done? ==> |r.rest| < |ts|
  {
    if |ts| < 2 || !ts[0].TParam? || bs == [] then Fail
    else if ts[1] == TSym(")") then Done([bs[0]], ts[2..], bs[1..])
    else if ts[1] == TSym(",") then
      match ParseParams(ts[2..], bs[1..])
      case Fail => Fail
      case Done(more, rest, left) => Done([bs[0]] + more, rest, left)
    else Fail
  }

  function ParseTest(ts: seq<Tok>, bs: seq<TypedBinding>): (r: Parsed<Cond>)
    ensures r.Done? ==> |r.rest| < |ts|
  {
    if |ts| < 3 then Fail
    else if ts[0].TIdent? then
      var column := ts[0].name;
      if ts[1].TSym? && ComparisonOf(ts[1].text).Some? then
        if ts[2].TParam? && |bs| >= 1 then
          Done(Atom(Compare(column, ComparisonOf(ts[1].text).value, bs[0])), ts[3..], bs[1..])
        else Fail
      else if ts[1] == TWord(BETWEEN) then
        if |ts| >= 5 && ts[2].TParam? && ts[3] == TWord(AND) && ts[4].TParam? && |bs| >= 2 then
          Done(Atom(Between(column, bs[0], bs[1])), ts[5..], bs[2..])
        else Fail
      else if ts[1] == TWord(IN) && ts[2] == TSym("(") then
        match ParseParams(ts[3..], bs)
        case Fail => Fail
        case Done(operands, rest, left) => Done(Atom(InList(column, operands)), rest, left)
      else if ts[1] == TWord(IS) && ts[2] == TWord(NULL) then
        Done(Atom(IsNull(column, false)), ts[3..], bs)
      else if |ts| >= 4 && ts[1] == TWord(IS) && ts[2] == TWord(NOT) && ts[3] == TWord(NULL) then
        Done(Atom(IsNull(column, true)), ts[4..], bs)
      else Fail
    else if |ts| >= 8 && ts[0] == TWord(POSITION) && ts[1] == TSym("(") && ts[2].TParam? && ts[3] == TWord(IN)
         && ts[4].TIdent? && ts[5] == TSym(")") && ts[6] == TSym(">") && ts[7] == TWord(ZERO) && |bs| >= 1 then
      Done(Atom(Contains(ts[4].name, bs[0])), ts[8..], bs[1..])
    else Fail
  }

  function ParseOr(ts: seq<Tok>, bs: seq<TypedBinding>): (r: Parsed<Cond>)
    ensures r.Done? ==> |r.rest| < |ts|
    decreases |ts|, 3
  {
    match ParseAnd(ts, bs)
    case Fail => Fail
    case Done(a, rest, left) =>
      if rest != [] && rest[0] == TWord(OR) then
        match ParseOr(rest[1..], left)
        case Fail => Fail
        case Done(b, rest2, left2) => Done(Or(a, b), rest2, left2)
      else Done(a, rest, left)
  }

  function ParseAnd(ts: seq<Tok>, bs: seq<TypedBinding>): (r: Parsed<Cond>)
    ensures r.Done? ==> |r.rest| < |ts|
    decreases |ts|, 2
  {
    match ParseNot(ts, bs)
    case Fail => Fail
    case Done(a, rest, left) =>
      if rest != [] && rest[0] == TWord(AND) then
        match ParseAnd(rest[1..], left)
        case Fail => Fail
        case Done(b, rest2, left2) => Done(And(a, b), rest2, left2)
      else Done(a, rest, left)
  }

  function ParseNot(ts: seq<Tok>, bs: seq<TypedBinding>): (r: Parsed<Cond>)
    ensures r.Done? ==> |r.rest| < |ts|
    decreases |ts|, 1
  {
    if ts != [] && ts[0] == TWord(NOT) then
      match ParseNot(ts[1..], bs)
      case Fail => Fail
      case Done(a, rest, left) => Done(Not(a), rest, left)
    else if ts != [] && ts[0] == TSym("(") then
      match ParseOr(ts[1..], bs)
      case Fail => Fail
      case Done(a, rest, left) =>
        if rest != [] && rest[0] == TSym(")") then Done(a, rest[1..], left) else Fail
    else ParseTest(ts, bs)
  }
}
