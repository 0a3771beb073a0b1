/** The WHERE-clause evaluator (run.py:511-675) over a closed expression datatype.
    The parse tree's OR/AND keyword children, which the source skips by taking only the
    even-indexed children, are not part of the datatype: `terms` and `factors` hold only
    the operands. */
module Where {
  import opened Strings
  import opened Catalog

  datatype CompOp = Gt | Lt | Eq | Ne | Ge | Le

  /** A column reference; `table` is "" when the reference is not qualified. Neither part
      is lower-cased by the evaluator. */
  datatype ColumnRef = ColumnRef(table: string, name: string)

  /** A literal keeps its token text and its token type as the parser gives them. */
  datatype Operand = Literal(text: string, tokenType: string) | ColumnOperand(ref: ColumnRef)

  datatype Predicate =
    | Comparison(left: Operand, op: CompOp, right: Operand)
    | NullTest(column: ColumnRef, isNotNull: bool)
    | Parenthesized(inner: BoolExpr)

  /** `negated` is the optional leading NOT. */
  datatype Factor = Factor(negated: bool, pred: Predicate)

  datatype BoolTerm = BoolTerm(factors: seq<Factor>)

  datatype BoolExpr = BoolExpr(terms: seq<BoolTerm>)

  /** What the caller passes: column names, their stored type strings and the in-scope
      (table, column) pairs, index-aligned (run.py:478-483). */
  datatype Scope = Scope(names: seq<string>, types: seq<string>, qualified: seq<(string, string)>)

  predicate Fits(scope: Scope, row: Row) {
    |scope.types| == |scope.names| && |scope.qualified| == |scope.names| && |row| == |scope.names|
  }

  /** Name resolution of a column reference to an index into the row (run.py:541-567). */
  function Resolve(ref: ColumnRef, scope: Scope): (r: Result<nat>)
    requires |scope.qualified| == |scope.names|
    ensures r.Err? <==>
      || ref.name !in scope.names
      || (ref.table != "" && (ref.table, ref.name) !in scope.qualified)
      || (ref.table == "" && Count(scope.names, ref.name) > 1)
    ensures r.Err? && ref.name !in scope.names ==> r.error == WhereColumnNotExist
    ensures r.Ok? ==> r.value < |scope.names|
    ensures r.Ok? && ref.table != "" ==> scope.qualified[r.value] == (ref.table, ref.name)
    ensures r.Ok? && ref.table == "" ==>
      scope.names[r.value] == ref.name &&
      forall j | 0 <= j < |scope.names| && scope.names[j] == ref.name :: j == r.value
  {
    if ref.name !in scope.names then Err(WhereColumnNotExist)
    else if ref.table != "" then
      if (ref.table, ref.name) !in scope.qualified then Err(WhereTableNotSpecified)
      else Ok(IndexOf(scope.qualified, (ref.table, ref.name)))
    else
      CountOne(scope.names, ref.name);
      CountZero(scope.names, ref.name);
      if Count(scope.names, ref.name) > 1 then Err(WhereAmbiguousReference)
      else Ok(IndexOf(scope.names, ref.name))
  }

  /** Value and type of an operand. The left literal's type is used as the token gives it
      (run.py:539); the right literal's type is lower-cased (run.py:571). */
  function OperandValue(o: Operand, scope: Scope, row: Row, lowerLiteral: bool): Result<(string, string)>
    requires Fits(scope, row)
  {
    match o
    case Literal(text, tokenType) => Ok((text, if lowerLiteral then Lower(tokenType) else tokenType))
    case ColumnOperand(ref) =>
      match Resolve(ref, scope)
      case Err(e) => Err(e)
      case Ok(i) => Ok((row[i], Lower(scope.types[i])))
  }

  /** The type compatibility test of run.py:601-611. */
  predicate Comparable(t1: string, t2: string) {
    || t1 == t2
    || (Contains(t1, "char") && Contains(t2, "char"))
    || (Contains(t1, "char") && t2 == "str")
    || (t1 == "str" && Contains(t2, "char"))
  }

  /** Python's str comparison operators (run.py:620-631). */
  function Compare(op: CompOp, a: string, b: string): bool {
    match op
    case Gt => StrLess(b, a)
    case Lt => StrLess(a, b)
    case Eq => a == b
    case Ne => a != b
    case Ge => !StrLess(a, b)
    case Le => !StrLess(b, a)
  }

  /** evaluate_bool_factor */
  function EvalFactor(f: Factor, scope: Scope, row: Row): Result<bool>
    requires Fits(scope, row)
  {
    match f.pred
    case Comparison(left, op, right) =>
      (match OperandValue(left, scope, row, false)
       case Err(e) => Err(e)
       case Ok((v1, t1)) =>
         match OperandValue(right, scope, row, true)
         case Err(e) => Err(e)
         case Ok((v2, t2)) =>
           if !Comparable(t1, t2) then Err(WhereIncomparableError)
           else Ok(Compare(op, v1, v2) != f.negated))
    case NullTest(column, isNotNull) =>
      // the leading NOT is not consulted on this branch (run.py:665-669)
      (match Resolve(column, scope)
       case Err(e) => Err(e)
       case Ok(i) =>
         var v := Lower(row[i]);
         Ok(if isNotNull then v != "null" else v == "null"))
    case Parenthesized(_) =>
      // evaluate_bool_expr is called with one argument: a TypeError (run.py:673-675)
      Err(ParenthesizedCallError)
  }

  /** all([...]) over every factor, evaluated left to right; the first failure aborts. */
  function EvalFactors(fs: seq<Factor>, scope: Scope, row: Row): Result<bool>
    requires Fits(scope, row)
  {
    if fs == [] then Ok(true)
    else
      match EvalFactor(fs[0], scope, row)
      case Err(e) => Err(e)
      case Ok(b) =>
        match EvalFactors(fs[1..], scope, row)
        case Err(e) => Err(e)
        case Ok(c) => Ok(b && c)
  }

  /** evaluate_bool_term */
  function EvalTerm(t: BoolTerm, scope: Scope, row: Row): Result<bool>
    requires Fits(scope, row)
  {
    EvalFactors(t.factors, scope, row)
  }

  /** any([...]) over every term, evaluated left to right; the first failure aborts. */
  function EvalTerms(ts: seq<BoolTerm>, scope: Scope, row: Row): Result<bool>
    requires Fits(scope, row)
  {
    if ts == [] then Ok(false)
    else
      match EvalTerm(ts[0], scope, row)
      case Err(e) => Err(e)
      case Ok(b) =>
        match EvalTerms(ts[1..], scope, row)
        case Err(e) => Err(e)
        case Ok(c) => Ok(b || c)
  }

  /** evaluate_bool_expr */
  function EvalExpr(e: BoolExpr, scope: Scope, row: Row): Result<bool>
    requires Fits(scope, row)
  {
    EvalTerms(e.terms, scope, row)
  }

  // ---------------------------------------------------------------------------
  // The failure of an evaluation, computed without a row

  function OperandError(o: Operand, scope: Scope): Option<Error>
    requires |scope.qualified| == |scope.names|
  {
    match o
    case Literal(_, _) => None
    case ColumnOperand(ref) => if Resolve(ref, scope).Err? then Some(Resolve(ref, scope).error) else None
  }

  function OperandType(o: Operand, scope: Scope, lowerLiteral: bool): string
    requires |scope.qualified| == |scope.names| && |scope.types| == |scope.names|
    requires OperandError(o, scope).None?
  {
    match o
    case Literal(_, tokenType) => if lowerLiteral then Lower(tokenType) else tokenType
    case ColumnOperand(ref) => Lower(scope.types[Resolve(ref, scope).value])
  }

  /** The error a factor raises, if any: name resolution, type compatibility and the
      parenthesised call depend on the schema and the expression only. */
  function FactorError(f: Factor, scope: Scope): Option<Error>
    requires |scope.qualified| == |scope.names| && |scope.types| == |scope.names|
  {
    match f.pred
    case Comparison(left, _, right) =>
      if OperandError(left, scope).Some? then OperandError(left, scope)
      else if OperandError(right, scope).Some? then OperandError(right, scope)
      else if !Comparable(OperandType(left, scope, false), OperandType(right, scope, true)) then Some(WhereIncomparableError)
      else None
    case NullTest(column, _) => if Resolve(column, scope).Err? then Some(Resolve(column, scope).error) else None
    case Parenthesized(_) => Some(ParenthesizedCallError)
  }

  /** The first failing factor's error. */
  function FactorsError(fs: seq<Factor>, scope: Scope): Option<Error>
    requires |scope.qualified| == |scope.names| && |scope.types| == |scope.names|
  {
    if fs == [] then None
    else if FactorError(fs[0], scope).Some? then FactorError(fs[0], scope)
    else FactorsError(fs[1..], scope)
  }

  function TermsError(ts: seq<BoolTerm>, scope: Scope): Option<Error>
    requires |scope.qualified| == |scope.names| && |scope.types| == |scope.names|
  {
    if ts == [] then None
    else if FactorsError(ts[0].factors, scope).Some? then FactorsError(ts[0].factors, scope)
    else TermsError(ts[1..], scope)
  }

  function ExprError(e: BoolExpr, scope: Scope): Option<Error>
    requires |scope.qualified| == |scope.names| && |scope.types| == |scope.names|
  {
    TermsError(e.terms, scope)
  }

  lemma FactorErrorExact(f: Factor, scope: Scope, row: Row)
    requires Fits(scope, row)
    ensures EvalFactor(f, scope, row).Err? <==> FactorError(f, scope).Some?
    ensures EvalFactor(f, scope, row).Err? ==> EvalFactor(f, scope, row).error == FactorError(f, scope).value
  {
  }

  lemma {:induction false} FactorsErrorExact(fs: seq<Factor>, scope: Scope, row: Row)
    requires Fits(scope, row)
    ensures EvalFactors(fs, scope, row).Err? <==> FactorsError(fs, scope).Some?
    ensures EvalFactors(fs, scope, row).Err? ==> EvalFactors(fs, scope, row).error == FactorsError(fs, scope).value
  {
    if fs != [] {
      FactorErrorExact(fs[0], scope, row);
      FactorsErrorExact(fs[1..], scope, row);
    }
  }

  lemma {:induction false} TermsErrorExact(ts: seq<BoolTerm>, scope: Scope, row: Row)
    requires Fits(scope, row)
    ensures EvalTerms(ts, scope, row).Err? <==> TermsError(ts, scope).Some?
    ensures EvalTerms(ts, scope, row).Err? ==> EvalTerms(ts, scope, row).error == TermsError(ts, scope).value
  {
    if ts != [] {
      FactorsErrorExact(ts[0].factors, scope, row);
      TermsErrorExact(ts[1..], scope, row);
    }
  }

  /** Evaluation fails on a row exactly when the row-free check reports an error, and
      with that error. */
  lemma ExprErrorExact(e: BoolExpr, scope: Scope, row: Row)
    requires Fits(scope, row)
    ensures EvalExpr(e, scope, row).Err? <==> ExprError(e, scope).Some?
    ensures EvalExpr(e, scope, row).Err? ==> EvalExpr(e, scope, row).error == ExprError(e, scope).value
  {
    TermsErrorExact(e.terms, scope, row);
  }

  /** Whether and how evaluation fails never depends on the row's contents. */
  lemma ErrorIsRowIndependent(e: BoolExpr, scope: Scope, r1: Row, r2: Row)
    requires Fits(scope, r1) && Fits(scope, r2)
    ensures EvalExpr(e, scope, r1).Err? <==> EvalExpr(e, scope, r2).Err?
    ensures EvalExpr(e, scope, r1).Err? ==> EvalExpr(e, scope, r1) == EvalExpr(e, scope, r2)
  {
    ExprErrorExact(e, scope, r1);
    ExprErrorExact(e, scope, r2);
  }

  // ---------------------------------------------------------------------------
  // Meaning of AND and OR

  /** A term is true iff every factor is true, and fails iff some factor fails. */
  lemma {:induction false} FactorsMeaning(fs: seq<Factor>, scope: Scope, row: Row)
    requires Fits(scope, row)
    ensures EvalFactors(fs, scope, row) == Ok(true) <==>
      forall i | 0 <= i < |fs| :: EvalFactor(fs[i], scope, row) == Ok(true)
    ensures EvalFactors(fs, scope, row).Err? <==>
      exists i | 0 <= i < |fs| :: EvalFactor(fs[i], scope, row).Err?
  {
    if fs != [] {
      FactorsMeaning(fs[1..], scope, row);
      assert forall i | 1 <= i < |fs| :: fs[i] == fs[1..][i - 1];
      if EvalFactor(fs[0], scope, row).Ok? && EvalFactors(fs[1..], scope, row).Err? {
        var i :| 0 <= i < |fs[1..]| && EvalFactor(fs[1..][i], scope, row).Err?;
        assert EvalFactor(fs[i + 1], scope, row).Err?;
      }
    }
  }

  /** An expression is true iff no term fails and some term is true, and fails iff some
      term fails: every term is evaluated, so a failure anywhere aborts. */
  lemma {:induction false} TermsMeaning(ts: seq<BoolTerm>, scope: Scope, row: Row)
    requires Fits(scope, row)
    ensures EvalTerms(ts, scope, row) == Ok(true) <==>
      (forall i | 0 <= i < |ts| :: EvalTerm(ts[i], scope, row).Ok?) &&
      (exists i | 0 <= i < |ts| :: EvalTerm(ts[i], scope, row) == Ok(true))
    ensures EvalTerms(ts, scope, row).Err? <==>
      exists i | 0 <= i < |ts| :: EvalTerm(ts[i], scope, row).Err?
  {
    if ts != [] {
      TermsMeaning(ts[1..], scope, row);
      assert forall i | 1 <= i < |ts| :: ts[i] == ts[1..][i - 1];
      if EvalTerm(ts[0], scope, row).Ok? && EvalTerms(ts[1..], scope, row).Err? {
        var i :| 0 <= i < |ts[1..]| && EvalTerm(ts[1..][i], scope, row).Err?;
        assert EvalTerm(ts[i + 1], scope, row).Err?;
      }
      if EvalTerms(ts[1..], scope, row) == Ok(true) {
        var i :| 0 <= i < |ts[1..]| && EvalTerm(ts[1..][i], scope, row) == Ok(true);
        assert EvalTerm(ts[i + 1], scope, row) == Ok(true);
      }
    }
  }

  /** Every factor of the term evaluates to true. */
  predicate AllFactorsTrue(t: BoolTerm, scope: Scope, row: Row)
    requires Fits(scope, row)
  {
    forall j | 0 <= j < |t.factors| :: EvalFactor(t.factors[j], scope, row) == Ok(true)
  }

  /** OR of ANDs: true iff no term fails and some term has all its factors true. */
  lemma ExprMeaning(e: BoolExpr, scope: Scope, row: Row)
    requires Fits(scope, row)
    ensures EvalExpr(e, scope, row) == Ok(true) <==>
      (forall i | 0 <= i < |e.terms| :: EvalTerm(e.terms[i], scope, row).Ok?) &&
      (exists i | 0 <= i < |e.terms| :: AllFactorsTrue(e.terms[i], scope, row))
  {
    TermsMeaning(e.terms, scope, row);
    forall i | 0 <= i < |e.terms|
      ensures EvalTerm(e.terms[i], scope, row) == Ok(true) <==> AllFactorsTrue(e.terms[i], scope, row)
    {
      FactorsMeaning(e.terms[i].factors, scope, row);
    }
  }

  // ---------------------------------------------------------------------------
  // Behaviour of single factors

  /** IS [NOT] NULL tests the lower-cased stored text against "null", and a leading NOT
      changes nothing. */
  lemma NullTestMeaning(neg: bool, c: ColumnRef, isNotNull: bool, scope: Scope, row: Row)
    requires Fits(scope, row)
    requires Resolve(c, scope).Ok?
    ensures EvalFactor(Factor(neg, NullTest(c, isNotNull)), scope, row)
         == Ok((Lower(row[Resolve(c, scope).value]) == "null") != isNotNull)
  {
  }

  /** A comparison fails with WhereIncomparableError exactly when both operands resolve
      and their types are not compatible. */
  lemma ComparisonTypeError(neg: bool, l: Operand, op: CompOp, r: Operand, scope: Scope, row: Row)
    requires Fits(scope, row)
    requires OperandError(l, scope).None? && OperandError(r, scope).None?
    ensures EvalFactor(Factor(neg, Comparison(l, op, r)), scope, row) == Err(WhereIncomparableError)
        <==> !Comparable(OperandType(l, scope, false), OperandType(r, scope, true))
  {
  }

  /** A one-column integer table used by the two examples below. */
  function IdScope(): Scope {
    Scope(["id"], ["int"], [("t", "id")])
  }

  /** Stored integers compare as text: the row with id 10 does not satisfy `id > 9`. */
  lemma IntegersCompareAsText()
    ensures EvalFactor(Factor(false, Comparison(ColumnOperand(ColumnRef("", "id")), Gt, Literal("9", "INT"))),
                       IdScope(), ["10"]) == Ok(false)
  {
    assert Resolve(ColumnRef("", "id"), IdScope()) == Ok(0);
    assert Lower("INT") == "int";
    assert Lower("int") == "int";
    assert !StrLess("9", "10");
  }

  /** A literal on the left keeps its token type un-lower-cased, so `9 < id` is
      reported as incomparable while `id > 9` is accepted. */
  lemma LeftLiteralTypeNotLowered()
    ensures EvalFactor(Factor(false, Comparison(Literal("9", "INT"), Lt, ColumnOperand(ColumnRef("", "id")))),
                       IdScope(), ["10"]) == Err(WhereIncomparableError)
  {
    assert Resolve(ColumnRef("", "id"), IdScope()) == Ok(0);
    assert Lower("int") == "int";
    assert !Contains("INT", "char");
  }
}
