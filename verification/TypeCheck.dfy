/** The type checker for expressions, and what a type promises about evaluation. */
module TypeCheck {
  import opened Wrappers
  import opened Expressions
  import opened Evaluator
  import opened Folding

  datatype CompileType = IntType | VarcharType | BoolType | NullType

  datatype CheckError =
    | NoExpression
    | NoSuchColumn
    | Mismatch
    | UnknownOperator
    | EmptyInList
    | EqualsNull
    | AggregateForbidden
    | StarForbidden
    | NoArgument
    | BadSubquery

  datatype Checked = Typed(t: CompileType) | Rejected(why: CheckError)

  /** The column types a subquery's plan has, or nothing when it cannot be planned. */
  type SubqueryPlanner = nat -> Option<seq<CompileType>>

  function CheckUnary(op: string, operand: Checked): Checked {
    if operand.Rejected? || operand.t.NullType? then operand
    else if op == "not" then (if operand.t.BoolType? then operand else Rejected(Mismatch))
    else if op == "-" then (if operand.t.IntType? then operand else Rejected(Mismatch))
    else Rejected(UnknownOperator)
  }

  function CheckBetween(operand: Checked, lower: Checked, upper: Checked): Checked {
    if operand.Rejected? then operand
    else if lower.Rejected? then lower
    else if upper.Rejected? then upper
    else if !operand.t.NullType? && !lower.t.NullType? && !upper.t.NullType?
            && (operand.t != lower.t || operand.t != upper.t) then Rejected(Mismatch)
    else Typed(BoolType)
  }

  function CheckOptions(operand: CompileType, options: seq<Checked>): Checked {
    if options == [] then Typed(BoolType)
    else if options[0].Rejected? then options[0]
    else if !options[0].t.NullType? && !operand.NullType? && options[0].t != operand then Rejected(Mismatch)
    else CheckOptions(operand, options[1..])
  }

  function CheckIn(operand: Checked, options: seq<Checked>): Checked {
    if options == [] then Rejected(EmptyInList)
    else if operand.Rejected? then operand
    else CheckOptions(operand.t, options)
  }

  function CheckAggregate(kind: AggregateKind, argument: Checked): Checked {
    if argument.Rejected? then argument
    else if kind.Count? then Typed(IntType)
    else if kind.Sum? || kind.Avg? then (if argument.t.IntType? then argument else Rejected(Mismatch))
    else if argument.t.BoolType? then Rejected(Mismatch)
    else argument
  }

  function CheckSubquery(kind: SubqueryKind, planned: Option<seq<CompileType>>, operand: Checked): Checked {
    if planned.None? then Rejected(BadSubquery)
    else if kind.Exists? then Typed(BoolType)
    else if |planned.value| != 1 then Rejected(BadSubquery)
    else
      var t := planned.value[0];
      if t.BoolType? then Rejected(Mismatch)
      else if kind.Scalar? then Typed(t)
      else if operand.Rejected? then operand
      else if !operand.t.NullType? && !t.NullType? && operand.t != t then Rejected(Mismatch)
      else Typed(BoolType)
  }

  function CheckOperator(op: string, left: CompileType, right: CompileType): Checked {
    var untyped := left.NullType? || right.NullType?;
    if op == "and" || op == "or" then
      if untyped then Typed(NullType)
      else if left.BoolType? && right.BoolType? then Typed(BoolType)
      else Rejected(Mismatch)
    else if IsArithmetic(op) then
      if untyped then Typed(NullType)
      else if left.IntType? && right.IntType? then Typed(IntType)
      else Rejected(Mismatch)
    else if op == "like" || op == "not like" then
      if untyped then Typed(NullType)
      else if left.VarcharType? && right.VarcharType? then Typed(BoolType)
      else Rejected(Mismatch)
    else if IsComparison(op) then
      if untyped then (if op == "=" then Rejected(EqualsNull) else Typed(BoolType))
      else if left == right then Typed(BoolType)
      else Rejected(Mismatch)
    else Rejected(UnknownOperator)
  }

  function CheckBinary(op: string, left: Checked, right: Checked): Checked {
    if left.Rejected? then left else if right.Rejected? then right else CheckOperator(op, left.t, right.t)
  }

  function TypeOfLiteral(kind: LiteralKind): CompileType {
    match kind
    case IntLiteral => IntType
    case StringLiteral => VarcharType
    case BoolLiteral => BoolType
    case NullLiteral => NullType
  }

  function TypeOfColumn(t: DataType): CompileType { if t.Int? then IntType else VarcharType }

  function CheckExpr(e: Expr, schema: Schema, aggregates: bool, planner: Option<SubqueryPlanner>): Checked {
    match e
    case Missing => Rejected(NoExpression)
    case Column(_, name) =>
      var index := FindColumn(schema, name);
      if index == |schema| then Rejected(NoSuchColumn) else Typed(TypeOfColumn(schema[index].dataType))
    case Literal(kind, _, _) => Typed(TypeOfLiteral(kind))
    case Unary(op, operand) => CheckUnary(op, CheckExpr(operand, schema, aggregates, planner))
    case IsNull(operand, _) =>
      var checked := CheckExpr(operand, schema, aggregates, planner);
      if checked.Rejected? then checked else Typed(BoolType)
    case Between(operand, lower, upper, _) =>
      CheckBetween(CheckExpr(operand, schema, aggregates, planner), CheckExpr(lower, schema, aggregates, planner),
                   CheckExpr(upper, schema, aggregates, planner))
    case In(operand, options, _) =>
      CheckIn(CheckExpr(operand, schema, aggregates, planner),
              seq(|options|, i requires 0 <= i < |options| => CheckExpr(options[i], schema, aggregates, planner)))
    case Subquery(kind, query, operand, _) =>
      if planner.None? then Rejected(BadSubquery)
      else CheckSubquery(kind, planner.value(query), CheckExpr(operand, schema, aggregates, planner))
    case Aggregate(kind, star, argument) =>
      if !aggregates then Rejected(AggregateForbidden)
      else if star then (if kind.Count? then Typed(IntType) else Rejected(StarForbidden))
      else if argument.Missing? then Rejected(NoArgument)
      else CheckAggregate(kind, CheckExpr(argument, schema, false, planner))
    case Binary(op, left, right) =>
      CheckBinary(op, CheckExpr(left, schema, aggregates, planner), CheckExpr(right, schema, aggregates, planner))
  }

  function CheckAll(options: seq<Expr>, schema: Schema, aggregates: bool,
                    planner: Option<SubqueryPlanner>): (r: seq<Checked>)
    ensures |r| == |options|
  {
    seq(|options|, i requires 0 <= i < |options| => CheckExpr(options[i], schema, aggregates, planner))
  }

  /** Checks an expression; the first error found in reading order is reported. */
  method Check(e: Expr, schema: Schema, aggregates: bool, planner: Option<SubqueryPlanner>) returns (r: Checked)
    ensures r == CheckExpr(e, schema, aggregates, planner)
    decreases e, 1
  {
    match e
    case Unary(op, operand) =>
      var v := Check(operand, schema, aggregates, planner);
      r := CheckUnary(op, v);
    case IsNull(operand, _) =>
      var v := Check(operand, schema, aggregates, planner);
      r := if v.Rejected? then v else Typed(BoolType);
    case Between(operand, lower, upper, _) =>
      var v := Check(operand, schema, aggregates, planner);
      if v.Rejected? { return v; }
      var l := Check(lower, schema, aggregates, planner);
      if l.Rejected? { return l; }
      var h := Check(upper, schema, aggregates, planner);
      r := CheckBetween(v, l, h);
    case In(_, _, _) => r := CheckInList(e, schema, aggregates, planner);
    case Aggregate(kind, star, argument) =>
      if !aggregates || star || argument.Missing? { return CheckExpr(e, schema, aggregates, planner); }
      var v := Check(argument, schema, false, planner);
      r := CheckAggregate(kind, v);
    case Binary(op, left, right) =>
      var l := Check(left, schema, aggregates, planner);
      if l.Rejected? { return l; }
      var h := Check(right, schema, aggregates, planner);
      r := CheckBinary(op, l, h);
    case _ => r := CheckExpr(e, schema, aggregates, planner);
  }

  /** The checker's loop over the options of an IN list. */
  method CheckInList(e: Expr, schema: Schema, aggregates: bool, planner: Option<SubqueryPlanner>) returns (r: Checked)
    requires e.In?
    ensures r == CheckExpr(e, schema, aggregates, planner)
    decreases e, 0
  {
    if e.options == [] { return Rejected(EmptyInList); }
    var subject := Check(e.operand, schema, aggregates, planner);
    if subject.Rejected? { return subject; }
    ghost var all := CheckAll(e.options, schema, aggregates, planner);
    var i := 0;
    while i < |e.options|
      invariant 0 <= i <= |e.options|
      invariant CheckOptions(subject.t, all) == CheckOptions(subject.t, all[i..])
    {
      var option := Check(e.options[i], schema, aggregates, planner);
      assert all[i..][0] == option && all[i..][1..] == all[i + 1..];
      if option.Rejected? { return option; }
      if !option.t.NullType? && !subject.t.NullType? && option.t != subject.t { return Rejected(Mismatch); }
      i := i + 1;
    }
    return Typed(BoolType);
  }

  // ----- soundness -----

  predicate FitsColumn(v: Value, t: DataType) {
    match v
    case NullValue => true
    case IntValue(n) => t.Int? && InInt64(n)
    case TextValue(_) => t.Varchar?
  }

  predicate Conforms(row: Row, schema: Schema) {
    |row| == |schema| && forall i :: 0 <= i < |row| ==> FitsColumn(row[i], schema[i].dataType)
  }

  /** The row conforms, and so does every row of the group where aggregates are allowed. */
  predicate Ready(ctx: Context, schema: Schema, aggregates: bool) {
    ctx.schema == schema && Conforms(ctx.row, schema)
    && (aggregates ==>
          ctx.group.Some? && |ctx.group.value| <= INT64_MAX
          && forall i :: 0 <= i < |ctx.group.value| ==> Conforms(ctx.group.value[i], schema))
  }

  /** Every integer literal is a 64-bit number and no subquery occurs. */
  predicate Plain(e: Expr) {
    match e
    case Literal(kind, integer, _) => kind.IntLiteral? ==> InInt64(integer)
    case Unary(_, operand) => Plain(operand)
    case IsNull(operand, _) => Plain(operand)
    case Between(operand, lower, upper, _) => Plain(operand) && Plain(lower) && Plain(upper)
    case In(operand, options, _) => Plain(operand) && forall i :: 0 <= i < |options| ==> Plain(options[i])
    case Subquery(_, _, _, _) => false
    case Aggregate(_, _, argument) => Plain(argument)
    case Binary(_, left, right) => Plain(left) && Plain(right)
    case _ => true
  }

  predicate NullFree(e: Expr) {
    match e
    case Literal(kind, _, _) => !kind.NullLiteral?
    case Unary(_, operand) => NullFree(operand)
    case IsNull(operand, _) => NullFree(operand)
    case Between(operand, lower, upper, _) => NullFree(operand) && NullFree(lower) && NullFree(upper)
    case In(operand, options, _) => NullFree(operand) && forall i :: 0 <= i < |options| ==> NullFree(options[i])
    case Subquery(_, _, operand, _) => false
    case Aggregate(_, _, argument) => NullFree(argument)
    case Binary(_, left, right) => NullFree(left) && NullFree(right)
    case _ => true
  }

  /** A value of that type, and nothing in the fields that belong to other kinds. */
  predicate HasType(v: EvalValue, t: CompileType) {
    match t
    case IntType => v == IntResult(v.integer) && InInt64(v.integer)
    case VarcharType => v == StringResult(v.text)
    case BoolType => v == BoolResult(v.boolean)
    case NullType => false
  }

  predicate MayFail(error: EvalError) { error == Overflow || error == DivisionByZero || error == AggregateOverflow }

  /** What evaluation may give for an expression of type `t`. */
  predicate Sound(r: Result<EvalValue>, t: CompileType) {
    match r
    case Ok(v) => v == NULL || HasType(v, t)
    case Err(error) => MayFail(error)
  }

  lemma ArithmeticIsSound(op: string, a: int, b: int)
    requires IsArithmetic(op) && InInt64(a) && InInt64(b)
    ensures Sound(Apply(op, IntResult(a), IntResult(b)), IntType)
  {
    SafeAddIsExact(a, b);
    SafeMulIsExact(a, b);
    CheckedMulIsSafeMul(a, b);
    if b != 0 { QuotientFits(a, b); }
  }

  lemma ComparisonIsSound(op: string, a: EvalValue, b: EvalValue, t: CompileType)
    requires IsComparison(op) && HasType(a, t) && HasType(b, t)
    ensures Sound(Apply(op, a, b), BoolType)
  {
  }

  lemma LogicIsSound(op: string, a: Result<EvalValue>, b: Result<EvalValue>)
    requires op == "and" || op == "or"
    requires Sound(a, BoolType) && Sound(b, BoolType)
    ensures Sound(EvalBinary(op, a, b), BoolType)
  {
  }

  lemma OperatorIsSound(op: string, a: Result<EvalValue>, b: Result<EvalValue>, s: CompileType, t: CompileType)
    requires Sound(a, s) && Sound(b, t) && CheckOperator(op, s, t).Typed? && op != "and" && op != "or"
    ensures Sound(EvalBinary(op, a, b), CheckOperator(op, s, t).t)
  {
    if a.Ok? && b.Ok? && a.value != NULL && b.value != NULL {
      assert HasType(a.value, s) && HasType(b.value, t);
      assert EvalBinary(op, a, b) == Apply(op, a.value, b.value);
      if IsArithmetic(op) {
        ArithmeticIsSound(op, a.value.integer, b.value.integer);
      } else if IsComparison(op) {
        ComparisonIsSound(op, a.value, b.value, t);
      }
    }
  }

  lemma BetweenIsSound(v: Result<EvalValue>, lower: Result<EvalValue>, upper: Result<EvalValue>, negated: bool,
                       s: CompileType, t: CompileType, u: CompileType)
    requires Sound(v, s) && Sound(lower, t) && Sound(upper, u)
    requires CheckBetween(Typed(s), Typed(t), Typed(u)).Typed?
    ensures Sound(EvalBetween(v, lower, upper, negated), BoolType)
  {
  }

  lemma {:induction false} ChooseIsSound(v: EvalValue, options: seq<Result<EvalValue>>, negated: bool, sawNull: bool,
                                         s: CompileType, types: seq<Checked>)
    requires HasType(v, s) && |types| == |options| && CheckOptions(s, types).Typed?
    requires forall i :: 0 <= i < |types| ==> types[i].Typed? ==> Sound(options[i], types[i].t)
    ensures Sound(Choose(v, options, negated, sawNull), BoolType)
  {
    if options != [] {
      assert Sound(options[0], types[0].t);
      var rest, after := options[1..], types[1..];
      assert forall i :: 0 <= i < |after| ==> after[i] == types[i + 1] && rest[i] == options[i + 1];
      var saw := sawNull || (options[0].Ok? && options[0].value.IsNull());
      ChooseIsSound(v, rest, negated, saw, s, after);
    }
  }

  lemma InIsSound(v: Result<EvalValue>, options: seq<Result<EvalValue>>, negated: bool, s: CompileType,
                  types: seq<Checked>)
    requires Sound(v, s) && |types| == |options| && CheckIn(Typed(s), types).Typed?
    requires forall i :: 0 <= i < |types| ==> types[i].Typed? ==> Sound(options[i], types[i].t)
    ensures Sound(EvalIn(v, options, negated), BoolType) && CheckIn(Typed(s), types) == Typed(BoolType)
  {
    OptionsAreBool(s, types);
    if v.Ok? && v.value != NULL {
      ChooseIsSound(v.value, options, negated, false, s, types);
    }
  }

  lemma {:induction false} CountIsSound(values: seq<Result<EvalValue>>, t: CompileType)
    requires forall i :: 0 <= i < |values| ==> Sound(values[i], t)
    ensures match CountValues(values)
            case Ok(v) => v == IntResult(v.integer) && 0 <= v.integer <= |values|
            case Err(error) => MayFail(error)
  {
    if values != [] {
      CountIsSound(values[..|values| - 1], t);
      assert Sound(values[|values| - 1], t);
    }
  }

  lemma {:induction false} GatherIsSound(kind: AggregateKind, values: seq<Result<EvalValue>>, t: CompileType)
    requires forall i :: 0 <= i < |values| ==> Sound(values[i], t)
    requires kind.Sum? || kind.Avg? ==> t.IntType?
    ensures match GatherAll(kind, values)
            case Ok(Empty) => true
            case Ok(Tally(v, n)) => HasType(v, t) && n > 0
            case Err(error) => MayFail(error)
  {
    if values != [] {
      var last := values[|values| - 1];
      GatherIsSound(kind, values[..|values| - 1], t);
      assert Sound(last, t);
      var rest := GatherAll(kind, values[..|values| - 1]);
      if last.Ok? && last.value != NULL && rest.Ok? && rest.value.Tally? {
        SafeAddIsExact(rest.value.gathered.integer, last.value.integer);
      }
    }
  }

  lemma AggregateIsSound(kind: AggregateKind, values: seq<Result<EvalValue>>, t: CompileType)
    requires forall i :: 0 <= i < |values| ==> Sound(values[i], t)
    requires CheckAggregate(kind, Typed(t)).Typed? && |values| <= INT64_MAX
    ensures Sound(EvalAggregate(kind, values), CheckAggregate(kind, Typed(t)).t)
  {
    if kind.Count? {
      CountIsSound(values, t);
    } else {
      GatherIsSound(kind, values, t);
      var tally := GatherAll(kind, values);
      if kind.Avg? && tally.Ok? && tally.value.Tally? {
        QuotientShrinks(tally.value.gathered.integer, tally.value.count);
      }
    }
  }

  lemma {:induction false} OptionsAreBool(s: CompileType, types: seq<Checked>)
    requires CheckOptions(s, types).Typed?
    ensures CheckOptions(s, types) == Typed(BoolType)
  {
    if types != [] { OptionsAreBool(s, types[1..]); }
  }

  // ----- how far soundness reaches -----

  /** Without NULL literals nothing is typed as always NULL. */
  lemma {:induction false} NullFreeIsTyped(e: Expr, schema: Schema, aggregates: bool)
    requires NullFree(e)
    ensures CheckExpr(e, schema, aggregates, None) != Typed(NullType)
    decreases e
  {
    match e
    case Unary(_, operand) => NullFreeIsTyped(operand, schema, aggregates);
    case In(operand, options, _) =>
      InIsNeverNull(CheckExpr(operand, schema, aggregates, None), CheckAll(options, schema, aggregates, None));
    case Aggregate(_, _, argument) => NullFreeIsTyped(argument, schema, false);
    case Binary(op, left, right) =>
      NullFreeIsTyped(left, schema, aggregates);
      NullFreeIsTyped(right, schema, aggregates);
    case _ =>
  }

  lemma InIsNeverNull(operand: Checked, options: seq<Checked>)
    ensures CheckIn(operand, options) != Typed(NullType)
  {
    if options != [] && operand.Typed? && CheckOptions(operand.t, options).Typed? {
      OptionsAreBool(operand.t, options);
    }
  }

  /** `-(NULL and (1 = 2))` is accepted, because NULL on one side types a conjunction as always NULL; but
      the conjunction is false, and negating that is a type mismatch. */
  lemma NullLogicIsUnsound(ctx: Context, schema: Schema)
    ensures var equal := Binary("=", Literal(IntLiteral, 1, ""), Literal(IntLiteral, 2, ""));
            var e := Unary("-", Binary("and", Literal(NullLiteral, 0, ""), equal));
            CheckExpr(e, schema, false, None) == Typed(NullType) && Eval(e, ctx) == Err(TypeMismatch)
  {
    var one, two := Literal(IntLiteral, 1, ""), Literal(IntLiteral, 2, "");
    var none := Literal(NullLiteral, 0, "");
    var equal := Binary("=", one, two);
    var both := Binary("and", none, equal);
    assert Eval(equal, ctx) == Ok(BoolResult(false));
    assert Eval(none, ctx) == Ok(NULL);
    assert Eval(both, ctx) == EvalBinary("and", Ok(NULL), Ok(BoolResult(false)));
    assert CheckExpr(equal, schema, false, None) == CheckOperator("=", IntType, IntType) == Typed(BoolType);
    assert CheckExpr(both, schema, false, None) == CheckOperator("and", NullType, BoolType) == Typed(NullType);
  }

  // ----- folding and types -----

  lemma ComputedIsTyped(op: string, left: Expr, right: Expr)
    requires SameLiteralKind(left, right)
    ensures var checked := CheckBinary(op, Typed(TypeOfLiteral(left.kind)), Typed(TypeOfLiteral(right.kind)));
            (IsInt(left) && IsArithmetic(op) ==> checked == Typed(IntType))
            && (IsComparison(op) || (IsBool(left) && (op == "and" || op == "or")) ==> checked == Typed(BoolType))
  {
  }

  lemma FoldBinaryKeepsType(op: string, left: Expr, right: Expr, schema: Schema, aggregates: bool,
                            planner: Option<SubqueryPlanner>)
    ensures CheckExpr(FoldBinary(op, left, right), schema, aggregates, planner)
            == CheckBinary(op, CheckExpr(left, schema, aggregates, planner),
                           CheckExpr(right, schema, aggregates, planner))
  {
    if FoldBinary(op, left, right) != Binary(op, left, right) {
      ComputedIsTyped(op, left, right);
      if IsInt(left) && FoldArithmetic(op, left.integer, right.integer).Some? { assert IsArithmetic(op); }
    }
  }

  lemma {:induction false} SameKindIsTyped(operand: Expr, options: seq<Expr>, schema: Schema, aggregates: bool,
                                           planner: Option<SubqueryPlanner>)
    requires AllSameKind(operand, options) && operand.Literal? && !operand.kind.NullLiteral?
    ensures CheckOptions(TypeOfLiteral(operand.kind), CheckAll(options, schema, aggregates, planner)) == Typed(BoolType)
  {
    if options != [] {
      assert options[0] in options;
      SameKindIsTyped(operand, options[1..], schema, aggregates, planner);
      assert CheckAll(options, schema, aggregates, planner)[1..] == CheckAll(options[1..], schema, aggregates, planner);
    }
  }

  lemma FoldInKeepsType(operand: Expr, options: seq<Expr>, negated: bool, schema: Schema, aggregates: bool,
                        planner: Option<SubqueryPlanner>)
    ensures CheckExpr(FoldIn(operand, options, negated), schema, aggregates, planner)
            == CheckIn(CheckExpr(operand, schema, aggregates, planner), CheckAll(options, schema, aggregates, planner))
  {
    if options != [] && AllSameKind(operand, options) {
      assert options[0] in options;
      SameKindIsTyped(operand, options, schema, aggregates, planner);
    }
  }

  /** Folding keeps the type and the rejection of every expression, so it can run before or after the check. */
  lemma {:induction false} FoldKeepsType(e: Expr, schema: Schema, aggregates: bool, planner: Option<SubqueryPlanner>)
    ensures CheckExpr(Fold(e), schema, aggregates, planner) == CheckExpr(e, schema, aggregates, planner)
    decreases e
  {
    match e
    case Binary(op, left, right) =>
      FoldKeepsType(left, schema, aggregates, planner);
      FoldKeepsType(right, schema, aggregates, planner);
      FoldBinaryKeepsType(op, Fold(left), Fold(right), schema, aggregates, planner);
    case Unary(op, operand) =>
      FoldKeepsType(operand, schema, aggregates, planner);
    case IsNull(operand, _) =>
      FoldKeepsType(operand, schema, aggregates, planner);
    case Between(operand, lower, upper, _) =>
      FoldKeepsType(operand, schema, aggregates, planner);
      FoldKeepsType(lower, schema, aggregates, planner);
      FoldKeepsType(upper, schema, aggregates, planner);
    case In(operand, options, negated) =>
      FoldKeepsType(operand, schema, aggregates, planner);
      forall i | 0 <= i < |options|
        ensures CheckExpr(Fold(options[i]), schema, aggregates, planner)
                == CheckExpr(options[i], schema, aggregates, planner)
      {
        FoldKeepsType(options[i], schema, aggregates, planner);
      }
      assert CheckAll(FoldAll(options), schema, aggregates, planner)
             == CheckAll(options, schema, aggregates, planner);
      FoldInKeepsType(Fold(operand), FoldAll(options), negated, schema, aggregates, planner);
    case Aggregate(_, star, argument) =>
      if !star && !argument.Missing? {
        FoldKeepsType(argument, schema, false, planner);
        FoldKeepsPresence(argument);
      }
    case _ =>
  }

  lemma FoldKeepsPresence(e: Expr)
    ensures Fold(e).Missing? == e.Missing?
  {
  }
}
