/** The typing rules, and that the checker accepts exactly what they allow. */
module TypeRules {
  import opened Wrappers
  import opened Expressions
  import opened Evaluator
  import opened Folding
  import opened TypeCheck

  // ----- the rules -----

  predicate IsLogical(op: string) { op == "and" || op == "or" }

  predicate IsMatching(op: string) { op == "like" || op == "not like" }

  /** Operands that are not NULL have one kind, and it is one that the operator takes. */
  predicate Takes(op: string, k: CompileType) {
    || (IsLogical(op) && k == BoolType)
    || (IsArithmetic(op) && k == IntType)
    || (IsMatching(op) && k == VarcharType)
    || (IsComparison(op) && k != NullType)
  }

  /** Arithmetic gives an integer, everything else a truth value. */
  function Gives(op: string): CompileType { if IsArithmetic(op) then IntType else BoolType }

  predicate IsBinary(op: string) { IsLogical(op) || IsArithmetic(op) || IsMatching(op) || IsComparison(op) }

  /** What always is NULL goes with everything; comparing it is still a truth value, but `=` refuses it. */
  predicate BinaryRule(op: string, s: CompileType, t: CompileType, r: CompileType) {
    if s == NullType || t == NullType then
      IsBinary(op) && op != "=" && r == if IsComparison(op) then BoolType else NullType
    else s == t && Takes(op, s) && r == Gives(op)
  }

  predicate UnaryRule(op: string, s: CompileType, r: CompileType) {
    s == r && (s == NullType || (op == "not" && s == BoolType) || (op == "-" && s == IntType))
  }

  /** The two can be compared. */
  predicate Goes(s: CompileType, t: CompileType) { s == NullType || t == NullType || s == t }

  predicate AggregateRule(kind: AggregateKind, s: CompileType, r: CompileType) {
    match kind
    case Count => r == IntType
    case Sum => s == IntType && r == IntType
    case Avg => s == IntType && r == IntType
    case Max => s != BoolType && r == s
    case Min => s != BoolType && r == s
  }

  /** Every option can be compared with the operand. */
  ghost predicate InRule(n: nat, hasKind: CompileType -> bool, options: (nat, CompileType) -> bool) {
    exists s :: hasKind(s) && forall i: nat :: i < n ==> OptionGoes(s, i, options)
  }

  ghost predicate OptionGoes(s: CompileType, i: nat, options: (nat, CompileType) -> bool) {
    exists k :: options(i, k) && Goes(s, k)
  }

  ghost predicate SomeGoes(s: CompileType, option: CompileType -> bool) { exists k :: option(k) && Goes(s, k) }

  /** An IN subquery needs an operand that goes with its one column; EXISTS takes any plan. */
  ghost predicate SubqueryRule(kind: SubqueryKind, plan: seq<CompileType>, r: CompileType,
                               hasKind: CompileType -> bool)
  {
    match kind
    case Exists => r == BoolType
    case Scalar => |plan| == 1 && plan[0] != BoolType && r == plan[0]
    case InSubquery =>
      |plan| == 1 && plan[0] != BoolType && r == BoolType
      && SomeGoes(plan[0], hasKind)
  }

  /** `e` has type `r` by the rules. */
  ghost predicate HasKind(e: Expr, schema: Schema, aggregates: bool, planner: Option<SubqueryPlanner>, r: CompileType) {
    match e
    case Missing => false
    case Column(_, name) =>
      exists i: nat :: IsFirst(schema, name, i)
                       && r == (match schema[i].dataType case Int => IntType case Varchar => VarcharType)
    case Literal(kind, _, _) =>
      r == (match kind
            case IntLiteral => IntType
            case StringLiteral => VarcharType
            case BoolLiteral => BoolType
            case NullLiteral => NullType)
    case Unary(op, operand) => exists s :: HasKind(operand, schema, aggregates, planner, s) && UnaryRule(op, s, r)
    case IsNull(operand, _) => r == BoolType && exists s :: HasKind(operand, schema, aggregates, planner, s)
    case Between(operand, lower, upper, _) =>
      r == BoolType
      && exists s, l, h ::
           && HasKind(operand, schema, aggregates, planner, s) && HasKind(lower, schema, aggregates, planner, l)
           && HasKind(upper, schema, aggregates, planner, h)
           && (s == NullType || l == NullType || h == NullType || s == l == h)
    case In(operand, options, _) =>
      r == BoolType && options != []
      && InRule(|options|, s => HasKind(operand, schema, aggregates, planner, s),
                (i: nat, k) => i < |options| && HasKind(options[i], schema, aggregates, planner, k))
    case Subquery(kind, query, operand, _) =>
      planner.Some? && planner.value(query).Some?
      && SubqueryRule(kind, planner.value(query).value, r,
                      s => HasKind(operand, schema, aggregates, planner, s))
    case Aggregate(kind, star, argument) =>
      aggregates
      && if star then kind.Count? && r == IntType
         else exists s :: HasKind(argument, schema, false, planner, s) && AggregateRule(kind, s, r)
    case Binary(op, left, right) =>
      exists s, t :: HasKind(left, schema, aggregates, planner, s) && HasKind(right, schema, aggregates, planner, t)
                     && BinaryRule(op, s, t, r)
  }

  ghost predicate IsFirst(schema: Schema, name: string, i: nat) {
    i < |schema| && schema[i].name == name && forall j :: 0 <= j < i ==> schema[j].name != name
  }

  // ----- the checker follows them -----

  lemma OperatorIff(op: string, s: CompileType, t: CompileType, r: CompileType)
    ensures CheckOperator(op, s, t) == Typed(r) <==> BinaryRule(op, s, t, r)
  {
  }

  lemma {:induction false} OptionsIff(s: CompileType, options: seq<Checked>)
    ensures CheckOptions(s, options) == Typed(BoolType) <==>
              forall i :: 0 <= i < |options| ==> options[i].Typed? && Goes(s, options[i].t)
    ensures CheckOptions(s, options).Typed? ==> CheckOptions(s, options).t == BoolType
  {
    if options != [] {
      var rest := options[1..];
      OptionsIff(s, rest);
      assert forall i :: 0 <= i < |rest| ==> rest[i] == options[i + 1];
      assert forall i :: 0 < i < |options| ==> options[i] == rest[i - 1];
    }
  }

  lemma InRuleIff(operand: Checked, all: seq<Checked>, hasKind: CompileType -> bool,
                  options: (nat, CompileType) -> bool)
    requires forall s :: hasKind(s) <==> operand == Typed(s)
    requires forall i: nat, k :: i < |all| ==> (options(i, k) <==> all[i] == Typed(k))
    ensures CheckIn(operand, all) == Typed(BoolType) <==> all != [] && InRule(|all|, hasKind, options)
    ensures CheckIn(operand, all).Typed? ==> CheckIn(operand, all).t == BoolType
  {
    if operand.Typed? {
      OptionsIff(operand.t, all);
      assert hasKind(operand.t);
      forall i: nat | i < |all|
        ensures OptionGoes(operand.t, i, options) <==> all[i].Typed? && Goes(operand.t, all[i].t)
      {
        if all[i].Typed? { assert options(i, all[i].t); }
      }
    }
  }

  lemma {:induction false} InIff(e: Expr, schema: Schema, aggregates: bool, planner: Option<SubqueryPlanner>,
                                 r: CompileType)
    requires e.In?
    ensures CheckExpr(e, schema, aggregates, planner) == Typed(r) <==> HasKind(e, schema, aggregates, planner, r)
    decreases e, 0
  {
    var all := CheckAll(e.options, schema, aggregates, planner);
    var operand := CheckExpr(e.operand, schema, aggregates, planner);
    var hasKind := s => HasKind(e.operand, schema, aggregates, planner, s);
    var options := (i: nat, k) => i < |e.options| && HasKind(e.options[i], schema, aggregates, planner, k);
    forall s ensures hasKind(s) <==> operand == Typed(s) { AcceptsIff(e.operand, schema, aggregates, planner, s); }
    forall i: nat, k | i < |all| ensures options(i, k) <==> all[i] == Typed(k) {
      AcceptsIff(e.options[i], schema, aggregates, planner, k);
    }
    assert CheckExpr(e, schema, aggregates, planner) == CheckIn(operand, all);
    InRuleIff(operand, all, hasKind, options);
  }

  lemma {:induction false} SubqueryIff(e: Expr, schema: Schema, aggregates: bool, planner: Option<SubqueryPlanner>,
                                       r: CompileType)
    requires e.Subquery?
    ensures CheckExpr(e, schema, aggregates, planner) == Typed(r) <==> HasKind(e, schema, aggregates, planner, r)
    decreases e, 0
  {
    forall s { AcceptsIff(e.operand, schema, aggregates, planner, s); }
    var operand := CheckExpr(e.operand, schema, aggregates, planner);
    var hasKind := s => HasKind(e.operand, schema, aggregates, planner, s);
    if operand.Typed? { assert hasKind(operand.t); }
    if planner.Some? && planner.value(e.query).Some? {
      SubqueryRuleIff(e.subquery, planner.value(e.query).value, operand, r, hasKind);
    }
  }

  lemma SubqueryRuleIff(kind: SubqueryKind, plan: seq<CompileType>, operand: Checked, r: CompileType,
                        hasKind: CompileType -> bool)
    requires forall s :: hasKind(s) <==> operand == Typed(s)
    ensures CheckSubquery(kind, Some(plan), operand) == Typed(r) <==> SubqueryRule(kind, plan, r, hasKind)
  {
    if operand.Typed? { assert hasKind(operand.t); }
  }

  /** The checker gives a type exactly when the rules do, and the same one. */
  lemma {:induction false} AcceptsIff(e: Expr, schema: Schema, aggregates: bool, planner: Option<SubqueryPlanner>,
                                      r: CompileType)
    ensures CheckExpr(e, schema, aggregates, planner) == Typed(r) <==> HasKind(e, schema, aggregates, planner, r)
    decreases e, 1
  {
    match e
    case Missing =>
    case Column(_, name) =>
      var i := FindColumn(schema, name);
      if i < |schema| { assert IsFirst(schema, name, i); }
    case Literal(_, _, _) =>
    case Unary(_, operand) =>
      forall s { AcceptsIff(operand, schema, aggregates, planner, s); }
    case IsNull(operand, _) =>
      forall s { AcceptsIff(operand, schema, aggregates, planner, s); }
    case Between(operand, lower, upper, _) =>
      forall s { AcceptsIff(operand, schema, aggregates, planner, s); }
      forall s { AcceptsIff(lower, schema, aggregates, planner, s); }
      forall s { AcceptsIff(upper, schema, aggregates, planner, s); }
    case In(_, _, _) => InIff(e, schema, aggregates, planner, r);
    case Subquery(_, _, _, _) => SubqueryIff(e, schema, aggregates, planner, r);
    case Aggregate(_, _, argument) =>
      forall s { AcceptsIff(argument, schema, false, planner, s); }
    case Binary(op, left, right) =>
      forall s { AcceptsIff(left, schema, aggregates, planner, s); }
      forall s { AcceptsIff(right, schema, aggregates, planner, s); }
      forall s, t { OperatorIff(op, s, t, r); }
  }
}
