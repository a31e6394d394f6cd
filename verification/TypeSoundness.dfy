/** Exactly when the types of an expression and of all its parts hold in a context. */
module TypeSoundness {
  import opened Wrappers
  import opened Expressions
  import opened Evaluator
  import opened TypeCheck

  /** The value the side of an `and` or an `or` decides it with. */
  predicate Decides(op: string, side: Result<EvalValue>) { side == Ok(BoolResult(op == "or")) }

  /** Evaluation gets to a side that decides. */
  predicate Decided(op: string, left: Result<EvalValue>, right: Result<EvalValue>) {
    Decides(op, left) || (left.Ok? && Decides(op, right))
  }

  predicate IsLogic(op: string) { op == "and" || op == "or" }

  /** An `and` or an `or` one side of which is typed as always NULL is sound exactly when no side decides it. */
  lemma LogicIsSoundIff(op: string, a: Result<EvalValue>, b: Result<EvalValue>, s: CompileType, t: CompileType)
    requires IsLogic(op) && Sound(a, s) && Sound(b, t) && (s.NullType? || t.NullType?)
    ensures CheckOperator(op, s, t) == Typed(NullType)
    ensures Sound(EvalBinary(op, a, b), NullType) <==> !Decided(op, a, b)
  {
  }

  // ----- parts and their contexts -----

  predicate SoundAt(e: Expr, ctx: Context, schema: Schema, aggregates: bool) {
    var checked := CheckExpr(e, schema, aggregates, None);
    checked.Typed? && Sound(Eval(e, ctx), checked.t)
  }

  /** The expression and all its parts evaluate as they are typed, an aggregate's argument on every row. */
  predicate SoundThroughout(e: Expr, ctx: Context, schema: Schema, aggregates: bool) {
    SoundAt(e, ctx, schema, aggregates)
    && match e
       case Unary(_, operand) => SoundThroughout(operand, ctx, schema, aggregates)
       case IsNull(operand, _) => SoundThroughout(operand, ctx, schema, aggregates)
       case Between(operand, lower, upper, _) =>
         SoundThroughout(operand, ctx, schema, aggregates) && SoundThroughout(lower, ctx, schema, aggregates)
         && SoundThroughout(upper, ctx, schema, aggregates)
       case In(operand, options, _) =>
         SoundThroughout(operand, ctx, schema, aggregates)
         && forall i :: 0 <= i < |options| ==> SoundThroughout(options[i], ctx, schema, aggregates)
       case Aggregate(_, star, argument) =>
         star || ctx.group.None?
         || forall i :: 0 <= i < |ctx.group.value| ==>
             SoundThroughout(argument, OnRow(ctx, ctx.group.value[i]), schema, false)
       case Binary(_, left, right) =>
         SoundThroughout(left, ctx, schema, aggregates) && SoundThroughout(right, ctx, schema, aggregates)
       case _ => true
  }

  /** No part that is an `and` or an `or` typed as always NULL is decided by a side. */
  predicate NeverDecided(e: Expr, ctx: Context, schema: Schema, aggregates: bool) {
    match e
    case Unary(_, operand) => NeverDecided(operand, ctx, schema, aggregates)
    case IsNull(operand, _) => NeverDecided(operand, ctx, schema, aggregates)
    case Between(operand, lower, upper, _) =>
      NeverDecided(operand, ctx, schema, aggregates) && NeverDecided(lower, ctx, schema, aggregates)
      && NeverDecided(upper, ctx, schema, aggregates)
    case In(operand, options, _) =>
      NeverDecided(operand, ctx, schema, aggregates)
      && forall i :: 0 <= i < |options| ==> NeverDecided(options[i], ctx, schema, aggregates)
    case Aggregate(_, star, argument) =>
      star || ctx.group.None?
      || forall i :: 0 <= i < |ctx.group.value| ==>
          NeverDecided(argument, OnRow(ctx, ctx.group.value[i]), schema, false)
    case Binary(op, left, right) =>
      NeverDecided(left, ctx, schema, aggregates) && NeverDecided(right, ctx, schema, aggregates)
      && (IsLogic(op) && CheckExpr(e, schema, aggregates, None) == Typed(NullType)
          ==> !Decided(op, Eval(left, ctx), Eval(right, ctx)))
    case _ => true
  }

  // ----- one node at a time -----

  lemma BinaryNode(e: Expr, ctx: Context, schema: Schema, aggregates: bool)
    requires e.Binary? && CheckExpr(e, schema, aggregates, None).Typed?
    requires SoundAt(e.left, ctx, schema, aggregates) && SoundAt(e.right, ctx, schema, aggregates)
    ensures SoundAt(e, ctx, schema, aggregates) <==>
              (IsLogic(e.op) && CheckExpr(e, schema, aggregates, None) == Typed(NullType)
               ==> !Decided(e.op, Eval(e.left, ctx), Eval(e.right, ctx)))
  {
    var a, b := Eval(e.left, ctx), Eval(e.right, ctx);
    var s, t := CheckExpr(e.left, schema, aggregates, None).t, CheckExpr(e.right, schema, aggregates, None).t;
    if !IsLogic(e.op) {
      OperatorIsSound(e.op, a, b, s, t);
    } else if s.NullType? || t.NullType? {
      LogicIsSoundIff(e.op, a, b, s, t);
    } else {
      LogicIsSound(e.op, a, b);
    }
  }

  lemma BetweenNode(e: Expr, ctx: Context, schema: Schema, aggregates: bool)
    requires e.Between? && CheckExpr(e, schema, aggregates, None).Typed?
    requires SoundAt(e.operand, ctx, schema, aggregates) && SoundAt(e.lower, ctx, schema, aggregates)
    requires SoundAt(e.upper, ctx, schema, aggregates)
    ensures SoundAt(e, ctx, schema, aggregates)
  {
    BetweenIsSound(Eval(e.operand, ctx), Eval(e.lower, ctx), Eval(e.upper, ctx), e.negated,
                   CheckExpr(e.operand, schema, aggregates, None).t, CheckExpr(e.lower, schema, aggregates, None).t,
                   CheckExpr(e.upper, schema, aggregates, None).t);
  }

  lemma InNode(e: Expr, ctx: Context, schema: Schema, aggregates: bool)
    requires e.In? && CheckExpr(e, schema, aggregates, None).Typed?
    requires SoundAt(e.operand, ctx, schema, aggregates)
    requires forall i :: 0 <= i < |e.options| ==> SoundAt(e.options[i], ctx, schema, aggregates)
    ensures SoundAt(e, ctx, schema, aggregates)
  {
    var types := CheckAll(e.options, schema, aggregates, None);
    var values := Options(e.options, ctx);
    forall i | 0 <= i < |types| && types[i].Typed? ensures Sound(values[i], types[i].t) {
      assert SoundAt(e.options[i], ctx, schema, aggregates);
    }
    InIsSound(Eval(e.operand, ctx), values, e.negated, CheckExpr(e.operand, schema, aggregates, None).t, types);
  }

  lemma AggregateNode(e: Expr, ctx: Context, schema: Schema)
    requires e.Aggregate? && CheckExpr(e, schema, true, None).Typed? && Ready(ctx, schema, true)
    requires e.star || forall i :: 0 <= i < |ctx.group.value| ==>
               SoundAt(e.argument, OnRow(ctx, ctx.group.value[i]), schema, false)
    ensures SoundAt(e, ctx, schema, true)
  {
    if !e.star {
      var values := OnRows(e.argument, ctx.group.value, ctx);
      var t := CheckExpr(e.argument, schema, false, None).t;
      forall i | 0 <= i < |values| ensures Sound(values[i], t) {
        assert SoundAt(e.argument, OnRow(ctx, ctx.group.value[i]), schema, false);
      }
      AggregateIsSound(e.aggregate, values, t);
    }
  }

  lemma {:induction false} OptionIsTyped(s: CompileType, types: seq<Checked>, i: nat)
    requires CheckOptions(s, types).Typed? && i < |types|
    ensures types[i].Typed?
  {
    if i > 0 { OptionIsTyped(s, types[1..], i - 1); }
  }

  // ----- all nodes -----

  lemma {:induction false} InIff(e: Expr, ctx: Context, schema: Schema, aggregates: bool)
    requires e.In? && Ready(ctx, schema, aggregates) && Plain(e) && CheckExpr(e, schema, aggregates, None).Typed?
    ensures SoundThroughout(e, ctx, schema, aggregates) <==> NeverDecided(e, ctx, schema, aggregates)
    decreases e, 0
  {
    SoundThroughoutIff(e.operand, ctx, schema, aggregates);
    var types := CheckAll(e.options, schema, aggregates, None);
    forall i | 0 <= i < |e.options|
      ensures SoundThroughout(e.options[i], ctx, schema, aggregates) <==>
                NeverDecided(e.options[i], ctx, schema, aggregates)
    {
      OptionIsTyped(CheckExpr(e.operand, schema, aggregates, None).t, types, i);
      SoundThroughoutIff(e.options[i], ctx, schema, aggregates);
    }
    if SoundThroughout(e.operand, ctx, schema, aggregates)
       && forall i :: 0 <= i < |e.options| ==> SoundThroughout(e.options[i], ctx, schema, aggregates)
    {
      forall i | 0 <= i < |e.options| ensures SoundAt(e.options[i], ctx, schema, aggregates) {
        assert SoundThroughout(e.options[i], ctx, schema, aggregates);
      }
      InNode(e, ctx, schema, aggregates);
    }
  }

  lemma {:induction false} AggregateIff(e: Expr, ctx: Context, schema: Schema)
    requires e.Aggregate? && Ready(ctx, schema, true) && Plain(e) && CheckExpr(e, schema, true, None).Typed?
    ensures SoundThroughout(e, ctx, schema, true) <==> NeverDecided(e, ctx, schema, true)
    decreases e, 0
  {
    var rows := ctx.group.value;
    if e.star {
      AggregateNode(e, ctx, schema);
    } else {
      forall i | 0 <= i < |rows|
        ensures SoundThroughout(e.argument, OnRow(ctx, rows[i]), schema, false)
                <==> NeverDecided(e.argument, OnRow(ctx, rows[i]), schema, false)
      {
        SoundThroughoutIff(e.argument, OnRow(ctx, rows[i]), schema, false);
      }
      if forall i :: 0 <= i < |rows| ==> SoundThroughout(e.argument, OnRow(ctx, rows[i]), schema, false) {
        forall i | 0 <= i < |rows| ensures SoundAt(e.argument, OnRow(ctx, rows[i]), schema, false) {
          assert SoundThroughout(e.argument, OnRow(ctx, rows[i]), schema, false);
        }
        AggregateNode(e, ctx, schema);
      }
    }
  }

  /** A well-typed expression and all its parts evaluate as typed - to a value of the type, to NULL, or to an
      overflow or a division by zero - exactly when no `and` and no `or` that is typed as always NULL has a side
      that decides it. Nothing else can make a type wrong. */
  lemma {:induction false} SoundThroughoutIff(e: Expr, ctx: Context, schema: Schema, aggregates: bool)
    requires Ready(ctx, schema, aggregates) && Plain(e) && CheckExpr(e, schema, aggregates, None).Typed?
    ensures SoundThroughout(e, ctx, schema, aggregates) <==> NeverDecided(e, ctx, schema, aggregates)
    decreases e, 1
  {
    match e
    case Column(_, name) =>
      var index := FindColumn(schema, name);
      assert FitsColumn(ctx.row[index], schema[index].dataType);
    case Literal(_, _, _) =>
    case Unary(op, operand) =>
      SoundThroughoutIff(operand, ctx, schema, aggregates);
    case IsNull(operand, _) =>
      SoundThroughoutIff(operand, ctx, schema, aggregates);
    case Between(operand, lower, upper, negated) =>
      SoundThroughoutIff(operand, ctx, schema, aggregates);
      SoundThroughoutIff(lower, ctx, schema, aggregates);
      SoundThroughoutIff(upper, ctx, schema, aggregates);
      if SoundAt(operand, ctx, schema, aggregates) && SoundAt(lower, ctx, schema, aggregates)
         && SoundAt(upper, ctx, schema, aggregates)
      {
        BetweenNode(e, ctx, schema, aggregates);
      }
    case In(_, _, _) =>
      InIff(e, ctx, schema, aggregates);
    case Aggregate(_, _, _) =>
      AggregateIff(e, ctx, schema);
    case Binary(op, left, right) =>
      SoundThroughoutIff(left, ctx, schema, aggregates);
      SoundThroughoutIff(right, ctx, schema, aggregates);
      if SoundAt(left, ctx, schema, aggregates) && SoundAt(right, ctx, schema, aggregates) {
        BinaryNode(e, ctx, schema, aggregates);
      }
    case _ =>
  }

  /** Whether the whole evaluates as typed can depend on the row: `-(null and c = 1)` does exactly where `c` is 1. */
  lemma SoundForSomeRows(ctx: Context, c: string, n: int)
    requires ctx.schema == [ColumnDef(c, Int)] && ctx.row == [IntValue(n)] && InInt64(n)
    ensures var equal := Binary("=", Column("", c), Literal(IntLiteral, 1, ""));
            var e := Unary("-", Binary("and", Literal(NullLiteral, 0, ""), equal));
            && Ready(ctx, ctx.schema, false) && Plain(e) && CheckExpr(e, ctx.schema, false, None) == Typed(NullType)
            && (Sound(Eval(e, ctx), NullType) <==> n == 1)
  {
    var column, one, none := Column("", c), Literal(IntLiteral, 1, ""), Literal(NullLiteral, 0, "");
    var equal := Binary("=", column, one);
    var both := Binary("and", none, equal);
    assert FindColumn(ctx.schema, c) == 0;
    assert Plain(column) && Plain(one) && Plain(none);
    assert Plain(equal);
    assert Plain(both);
    assert Eval(column, ctx) == Ok(IntResult(n)) && Eval(one, ctx) == Ok(IntResult(1)) && Eval(none, ctx) == Ok(NULL);
    assert Eval(equal, ctx) == EvalBinary("=", Ok(IntResult(n)), Ok(IntResult(1))) == Ok(BoolResult(n == 1));
    assert Eval(both, ctx) == EvalBinary("and", Ok(NULL), Ok(BoolResult(n == 1)));
    assert CheckExpr(equal, ctx.schema, false, None) == CheckOperator("=", IntType, IntType) == Typed(BoolType);
    assert CheckExpr(both, ctx.schema, false, None) == CheckOperator("and", NullType, BoolType) == Typed(NullType);
  }

  /** Where nothing is decided, the expression is sound. */
  lemma NeverDecidedIsSound(e: Expr, ctx: Context, schema: Schema, aggregates: bool)
    requires Ready(ctx, schema, aggregates) && Plain(e) && CheckExpr(e, schema, aggregates, None).Typed?
    requires NeverDecided(e, ctx, schema, aggregates)
    ensures Sound(Eval(e, ctx), CheckExpr(e, schema, aggregates, None).t)
  {
    SoundThroughoutIff(e, ctx, schema, aggregates);
  }

  /** An expression without NULL literals has no part typed as always NULL, so nothing is decided. */
  lemma {:induction false} NullFreeIsNeverDecided(e: Expr, ctx: Context, schema: Schema, aggregates: bool)
    requires NullFree(e)
    ensures NeverDecided(e, ctx, schema, aggregates)
    decreases e
  {
    NullFreeIsTyped(e, schema, aggregates);
    match e
    case Unary(_, operand) => NullFreeIsNeverDecided(operand, ctx, schema, aggregates);
    case IsNull(operand, _) => NullFreeIsNeverDecided(operand, ctx, schema, aggregates);
    case Between(operand, lower, upper, _) =>
      NullFreeIsNeverDecided(operand, ctx, schema, aggregates);
      NullFreeIsNeverDecided(lower, ctx, schema, aggregates);
      NullFreeIsNeverDecided(upper, ctx, schema, aggregates);
    case In(operand, options, _) =>
      NullFreeIsNeverDecided(operand, ctx, schema, aggregates);
      forall i | 0 <= i < |options| ensures NeverDecided(options[i], ctx, schema, aggregates) {
        NullFreeIsNeverDecided(options[i], ctx, schema, aggregates);
      }
    case Aggregate(_, star, argument) =>
      if !star && ctx.group.Some? {
        forall i | 0 <= i < |ctx.group.value|
          ensures NeverDecided(argument, OnRow(ctx, ctx.group.value[i]), schema, false)
        {
          NullFreeIsNeverDecided(argument, OnRow(ctx, ctx.group.value[i]), schema, false);
        }
      }
    case Binary(_, left, right) =>
      NullFreeIsNeverDecided(left, ctx, schema, aggregates);
      NullFreeIsNeverDecided(right, ctx, schema, aggregates);
    case _ =>
  }

  /** Soundness for expressions without NULL literals: a value of the type, NULL, or an overflow or a division
      by zero; never a type mismatch or a missing column. */
  lemma NullFreeIsSound(e: Expr, ctx: Context, schema: Schema, aggregates: bool)
    requires Ready(ctx, schema, aggregates) && Plain(e) && NullFree(e)
    requires CheckExpr(e, schema, aggregates, None).Typed?
    ensures Sound(Eval(e, ctx), CheckExpr(e, schema, aggregates, None).t)
    ensures CheckExpr(e, schema, aggregates, None).t != NullType
  {
    NullFreeIsTyped(e, schema, aggregates);
    NullFreeIsNeverDecided(e, ctx, schema, aggregates);
    NeverDecidedIsSound(e, ctx, schema, aggregates);
  }
}
