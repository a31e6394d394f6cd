/** Constant folding: it never changes what an expression evaluates to, errors included. */
module Folding {
  import opened Wrappers
  import opened Expressions
  import opened Evaluator

  predicate IsInt(e: Expr) { e.Literal? && e.kind.IntLiteral? }

  predicate IsString(e: Expr) { e.Literal? && e.kind.StringLiteral? }

  predicate IsBool(e: Expr) { e.Literal? && e.kind.BoolLiteral? }

  predicate SameLiteralKind(a: Expr, b: Expr) {
    (IsInt(a) && IsInt(b)) || (IsString(a) && IsString(b)) || (IsBool(a) && IsBool(b))
  }

  function MakeInt(n: int): Expr { Literal(IntLiteral, n, "") }

  function MakeBool(b: bool): Expr { Literal(BoolLiteral, 0, if b then "true" else "false") }

  function BoolValue(e: Expr): bool
    requires IsBool(e)
  { e.text == "true" }

  function CompareLiterals(a: Expr, b: Expr): int
    requires SameLiteralKind(a, b)
  {
    if IsInt(a) then ThreeWay(a.integer, b.integer)
    else if IsString(a) then TextOrder(a.text, b.text)
    else BoolOrder(BoolValue(a), BoolValue(b))
  }

  predicate IsComparison(op: string) {
    op == "=" || op == "!=" || op == "<>" || op == ">" || op == ">=" || op == "<" || op == "<="
  }

  function FoldArithmetic(op: string, lhs: int, rhs: int): Option<int> {
    if op == "+" then SafeAdd(lhs, rhs)
    else if op == "-" then SafeSub(lhs, rhs)
    else if op == "*" then SafeMul(lhs, rhs)
    else if op == "/" && rhs != 0 && !(lhs == INT64_MIN && rhs == -1) then Some(TruncDiv(lhs, rhs))
    else None
  }

  function FoldBinary(op: string, left: Expr, right: Expr): Expr {
    var number := if IsInt(left) && IsInt(right) then FoldArithmetic(op, left.integer, right.integer) else None;
    if number.Some? then MakeInt(number.value)
    else if IsBool(left) && IsBool(right) && (op == "and" || op == "or") then
      MakeBool(if op == "and" then BoolValue(left) && BoolValue(right) else BoolValue(left) || BoolValue(right))
    else if SameLiteralKind(left, right) && IsComparison(op) then
      MakeBool(Verdict(op, CompareLiterals(left, right)))
    else Binary(op, left, right)
  }

  function FoldUnary(op: string, operand: Expr): Expr {
    if op == "-" && IsInt(operand) && operand.integer != INT64_MIN then MakeInt(-operand.integer)
    else if op == "not" && IsBool(operand) then MakeBool(!BoolValue(operand))
    else Unary(op, operand)
  }

  function FoldIsNull(operand: Expr, negated: bool): Expr {
    if operand.Literal? then MakeBool(operand.kind.NullLiteral? != negated) else IsNull(operand, negated)
  }

  function FoldBetween(operand: Expr, lower: Expr, upper: Expr, negated: bool): Expr {
    if SameLiteralKind(operand, lower) && SameLiteralKind(operand, upper) then
      MakeBool((CompareLiterals(operand, lower) >= 0 && CompareLiterals(operand, upper) <= 0) != negated)
    else Between(operand, lower, upper, negated)
  }

  predicate AllSameKind(operand: Expr, options: seq<Expr>) {
    forall o :: o in options ==> SameLiteralKind(operand, o)
  }

  predicate Matched(operand: Expr, options: seq<Expr>)
    requires AllSameKind(operand, options)
  {
    exists o :: o in options && CompareLiterals(operand, o) == 0
  }

  function FoldIn(operand: Expr, options: seq<Expr>, negated: bool): Expr {
    if options != [] && AllSameKind(operand, options) then MakeBool(Matched(operand, options) != negated)
    else In(operand, options, negated)
  }

  /** Children first; what cannot be computed safely stays, with its folded children. */
  function Fold(e: Expr): Expr {
    match e
    case Binary(op, left, right) => FoldBinary(op, Fold(left), Fold(right))
    case Unary(op, operand) => FoldUnary(op, Fold(operand))
    case IsNull(operand, negated) => FoldIsNull(Fold(operand), negated)
    case Between(operand, lower, upper, negated) => FoldBetween(Fold(operand), Fold(lower), Fold(upper), negated)
    case In(operand, options, negated) =>
      FoldIn(Fold(operand), seq(|options|, i requires 0 <= i < |options| => Fold(options[i])), negated)
    case Aggregate(kind, star, argument) =>
      if star || argument.Missing? then e else Aggregate(kind, false, Fold(argument))
    case _ => e
  }

  function FoldAll(options: seq<Expr>): (r: seq<Expr>)
    ensures |r| == |options|
  {
    seq(|options|, i requires 0 <= i < |options| => Fold(options[i]))
  }

  /** Folds an expression. */
  method FoldExpr(e: Expr) returns (r: Expr)
    ensures r == Fold(e)
    decreases e, 1
  {
    match e
    case Binary(op, left, right) =>
      var l := FoldExpr(left);
      var h := FoldExpr(right);
      r := FoldBinary(op, l, h);
    case Unary(op, operand) =>
      var v := FoldExpr(operand);
      r := FoldUnary(op, v);
    case IsNull(operand, negated) =>
      var v := FoldExpr(operand);
      r := FoldIsNull(v, negated);
    case Between(operand, lower, upper, negated) =>
      var v := FoldExpr(operand);
      var l := FoldExpr(lower);
      var h := FoldExpr(upper);
      r := FoldBetween(v, l, h, negated);
    case In(_, _, _) => r := FoldInList(e);
    case Aggregate(kind, star, argument) =>
      if star || argument.Missing? { return e; }
      var v := FoldExpr(argument);
      r := Aggregate(kind, false, v);
    case _ => r := e;
  }

  /** Whether an option equals the operand. */
  method AnyMatch(operand: Expr, options: seq<Expr>) returns (matched: bool)
    requires AllSameKind(operand, options)
    ensures matched == Matched(operand, options)
  {
    var j := 0;
    while j < |options|
      invariant 0 <= j <= |options|
      invariant forall k :: 0 <= k < j ==> CompareLiterals(operand, options[k]) != 0
    {
      if CompareLiterals(operand, options[j]) == 0 { return true; }
      j := j + 1;
    }
    return false;
  }

  /** The loop over the options of an IN list: it folds each one and stops at nothing. */
  method FoldInList(e: Expr) returns (r: Expr)
    requires e.In?
    ensures r == Fold(e)
    decreases e, 0
  {
    var subject := FoldExpr(e.operand);
    var folded: seq<Expr> := [];
    var allConstants := true;
    var i := 0;
    while i < |e.options|
      invariant 0 <= i <= |e.options| == |FoldAll(e.options)|
      invariant folded == FoldAll(e.options)[..i]
      invariant allConstants == AllSameKind(subject, folded)
    {
      var option := FoldExpr(e.options[i]);
      allConstants := allConstants && SameLiteralKind(subject, option);
      folded := folded + [option];
      i := i + 1;
    }
    assert folded == FoldAll(e.options);
    if !allConstants || folded == [] { return In(subject, folded, e.negated); }
    var matched := AnyMatch(subject, folded);
    return MakeBool(matched != e.negated);
  }

  // ----- what is kept -----

  /** Two literals of one kind compare as their values do. */
  lemma LiteralsCompare(a: Expr, b: Expr, ctx: Context)
    requires SameLiteralKind(a, b)
    ensures Eval(a, ctx).Ok? && Eval(b, ctx).Ok? && !Eval(a, ctx).value.IsNull() && !Eval(b, ctx).value.IsNull()
    ensures CompareEval(Eval(a, ctx).value, Eval(b, ctx).value) == Ok(CompareLiterals(a, b))
  {
  }

  lemma NumberIsComputed(op: string, lhs: int, rhs: int)
    requires FoldArithmetic(op, lhs, rhs).Some?
    ensures EvalBinary(op, Ok(IntResult(lhs)), Ok(IntResult(rhs))) == Ok(IntResult(FoldArithmetic(op, lhs, rhs).value))
  {
    CheckedMulIsSafeMul(lhs, rhs);
  }

  lemma ComparisonIsComputed(op: string, a: EvalValue, b: EvalValue)
    requires IsComparison(op) && !a.IsNull() && !b.IsNull() && CompareEval(a, b).Ok?
    ensures EvalBinary(op, Ok(a), Ok(b)) == Ok(BoolResult(Verdict(op, CompareEval(a, b).value)))
  {
  }

  lemma LogicIsComputed(op: string, a: bool, b: bool)
    requires op == "and" || op == "or"
    ensures EvalBinary(op, Ok(BoolResult(a)), Ok(BoolResult(b)))
            == Ok(BoolResult(if op == "and" then a && b else a || b))
  {
  }

  lemma NumberFolds(op: string, left: Expr, right: Expr, ctx: Context)
    requires IsInt(left) && IsInt(right) && FoldArithmetic(op, left.integer, right.integer).Some?
    ensures FoldBinary(op, left, right) == MakeInt(FoldArithmetic(op, left.integer, right.integer).value)
    ensures Eval(FoldBinary(op, left, right), ctx) == EvalBinary(op, Eval(left, ctx), Eval(right, ctx))
  {
    NumberIsComputed(op, left.integer, right.integer);
  }

  lemma ComparisonFolds(op: string, left: Expr, right: Expr, ctx: Context)
    requires SameLiteralKind(left, right) && IsComparison(op)
    ensures Eval(MakeBool(Verdict(op, CompareLiterals(left, right))), ctx)
            == EvalBinary(op, Eval(left, ctx), Eval(right, ctx))
  {
    LiteralsCompare(left, right, ctx);
    ComparisonIsComputed(op, Eval(left, ctx).value, Eval(right, ctx).value);
  }

  lemma LogicFolds(op: string, left: Expr, right: Expr, ctx: Context)
    requires IsBool(left) && IsBool(right) && (op == "and" || op == "or")
    ensures Eval(FoldBinary(op, left, right), ctx) == EvalBinary(op, Eval(left, ctx), Eval(right, ctx))
  {
    LogicIsComputed(op, BoolValue(left), BoolValue(right));
  }

  /** What folding does with two operands. */
  datatype Way = Numeric | Logical | Compared | Kept

  function WayOf(op: string, left: Expr, right: Expr): Way {
    if IsInt(left) && IsInt(right) && FoldArithmetic(op, left.integer, right.integer).Some? then Numeric
    else if IsBool(left) && IsBool(right) && (op == "and" || op == "or") then Logical
    else if SameLiteralKind(left, right) && IsComparison(op) then Compared
    else Kept
  }

  lemma KeptIsKept(op: string, left: Expr, right: Expr)
    requires WayOf(op, left, right).Kept?
    ensures FoldBinary(op, left, right) == Binary(op, left, right)
  {
  }

  lemma ComparedIsCompared(op: string, left: Expr, right: Expr)
    requires WayOf(op, left, right).Compared?
    ensures SameLiteralKind(left, right) && IsComparison(op)
    ensures FoldBinary(op, left, right) == MakeBool(Verdict(op, CompareLiterals(left, right)))
  {
  }

  lemma FoldBinaryKeepsMeaning(op: string, left: Expr, right: Expr, ctx: Context)
    ensures Eval(FoldBinary(op, left, right), ctx) == EvalBinary(op, Eval(left, ctx), Eval(right, ctx))
  {
    match WayOf(op, left, right)
    case Numeric => NumberFolds(op, left, right, ctx);
    case Logical => LogicFolds(op, left, right, ctx);
    case Compared =>
      ComparedIsCompared(op, left, right);
      ComparisonFolds(op, left, right, ctx);
    case Kept => KeptIsKept(op, left, right);
  }

  lemma FoldUnaryKeepsMeaning(op: string, operand: Expr, ctx: Context)
    ensures Eval(FoldUnary(op, operand), ctx) == EvalUnary(op, Eval(operand, ctx))
  {
  }

  lemma FoldBetweenKeepsMeaning(operand: Expr, lower: Expr, upper: Expr, negated: bool, ctx: Context)
    ensures Eval(FoldBetween(operand, lower, upper, negated), ctx)
            == EvalBetween(Eval(operand, ctx), Eval(lower, ctx), Eval(upper, ctx), negated)
  {
    if SameLiteralKind(operand, lower) && SameLiteralKind(operand, upper) {
      LiteralsCompare(operand, lower, ctx);
      LiteralsCompare(operand, upper, ctx);
    } else {
      assert FoldBetween(operand, lower, upper, negated) == Between(operand, lower, upper, negated);
    }
  }

  lemma FoldInKeepsMeaning(operand: Expr, options: seq<Expr>, negated: bool, ctx: Context)
    ensures Eval(FoldIn(operand, options, negated), ctx) == EvalIn(Eval(operand, ctx), Options(options, ctx), negated)
  {
    if options != [] && AllSameKind(operand, options) {
      var results := Options(options, ctx);
      forall o | o in options
        ensures Eval(o, ctx).Ok? && !Eval(o, ctx).value.IsNull()
        ensures CompareEval(Eval(operand, ctx).value, Eval(o, ctx).value) == Ok(CompareLiterals(operand, o))
      {
        LiteralsCompare(operand, o, ctx);
      }
      assert forall i :: 0 <= i < |results| ==> results[i] == Eval(options[i], ctx) && options[i] in options;
      assert options[0] in options;
      ChooseMeans(Eval(operand, ctx).value, results, negated, false);
      if Matched(operand, options) {
        var o :| o in options && CompareLiterals(operand, o) == 0;
        var i :| 0 <= i < |options| && options[i] == o;
        assert results[i] == Eval(o, ctx);
      }
    } else {
      assert Options(options, ctx) == seq(|options|, i requires 0 <= i < |options| => Eval(options[i], ctx));
    }
  }

  /** Folding keeps the value and the error of every expression, on every row and group and with every
      subquery runner. */
  lemma {:induction false} FoldKeepsMeaning(e: Expr, ctx: Context)
    ensures Eval(Fold(e), ctx) == Eval(e, ctx)
    decreases e
  {
    match e
    case Binary(op, left, right) =>
      FoldKeepsMeaning(left, ctx);
      FoldKeepsMeaning(right, ctx);
      FoldBinaryKeepsMeaning(op, Fold(left), Fold(right), ctx);
    case Unary(op, operand) =>
      FoldKeepsMeaning(operand, ctx);
      FoldUnaryKeepsMeaning(op, Fold(operand), ctx);
    case IsNull(operand, negated) =>
      FoldKeepsMeaning(operand, ctx);
    case Between(operand, lower, upper, negated) =>
      FoldKeepsMeaning(operand, ctx);
      FoldKeepsMeaning(lower, ctx);
      FoldKeepsMeaning(upper, ctx);
      FoldBetweenKeepsMeaning(Fold(operand), Fold(lower), Fold(upper), negated, ctx);
    case In(operand, options, negated) =>
      FoldKeepsMeaning(operand, ctx);
      forall i | 0 <= i < |options| ensures Eval(Fold(options[i]), ctx) == Eval(options[i], ctx) {
        FoldKeepsMeaning(options[i], ctx);
      }
      assert Options(FoldAll(options), ctx) == Options(options, ctx);
      FoldInKeepsMeaning(Fold(operand), FoldAll(options), negated, ctx);
    case Aggregate(kind, star, argument) =>
      if !star && !argument.Missing? && ctx.group.Some? {
        var rows := ctx.group.value;
        forall i | 0 <= i < |rows|
          ensures Eval(Fold(argument), OnRow(ctx, rows[i])) == Eval(argument, OnRow(ctx, rows[i]))
        {
          FoldKeepsMeaning(argument, OnRow(ctx, rows[i]));
        }
        assert OnRows(Fold(argument), rows, ctx) == OnRows(argument, rows, ctx);
      }
    case _ =>
  }

  /** A folded expression folds to itself. */
  lemma {:induction false} FoldIsIdempotent(e: Expr)
    ensures Fold(Fold(e)) == Fold(e)
    decreases e
  {
    match e
    case Binary(op, left, right) =>
      FoldIsIdempotent(left);
      FoldIsIdempotent(right);
    case Unary(op, operand) =>
      FoldIsIdempotent(operand);
    case IsNull(operand, negated) =>
      FoldIsIdempotent(operand);
    case Between(operand, lower, upper, negated) =>
      FoldIsIdempotent(operand);
      FoldIsIdempotent(lower);
      FoldIsIdempotent(upper);
    case In(operand, options, negated) =>
      FoldIsIdempotent(operand);
      forall i | 0 <= i < |options| ensures Fold(Fold(options[i])) == Fold(options[i]) {
        FoldIsIdempotent(options[i]);
      }
      assert FoldAll(FoldAll(options)) == FoldAll(options);
    case Aggregate(kind, star, argument) =>
      if !star && !argument.Missing? {
        FoldIsIdempotent(argument);
      }
    case _ =>
  }

  /** A constant sum, difference or product folds exactly when the true result fits in 64 bits. */
  lemma ArithmeticFoldsIff(op: string, lhs: int, rhs: int)
    requires InInt64(lhs) && InInt64(rhs)
    requires op == "+" || op == "-" || op == "*"
    ensures var exact := if op == "+" then lhs + rhs else if op == "-" then lhs - rhs else lhs * rhs;
            Fold(Binary(op, MakeInt(lhs), MakeInt(rhs)))
            == if InInt64(exact) then MakeInt(exact) else Binary(op, MakeInt(lhs), MakeInt(rhs))
  {
    SafeAddIsExact(lhs, rhs);
    SafeMulIsExact(lhs, rhs);
  }

  /** A constant quotient folds exactly when there is one and it fits. */
  lemma DivisionFoldsIff(lhs: int, rhs: int)
    requires InInt64(lhs) && InInt64(rhs)
    ensures Fold(Binary("/", MakeInt(lhs), MakeInt(rhs)))
            == if rhs != 0 && InInt64(TruncDiv(lhs, rhs)) then MakeInt(TruncDiv(lhs, rhs))
               else Binary("/", MakeInt(lhs), MakeInt(rhs))
  {
    if rhs != 0 { QuotientFits(lhs, rhs); }
  }
}
