/** The evaluator: three-valued logic, checked 64-bit arithmetic, LIKE, IN lists and aggregates. */
module Evaluator {
  import opened Wrappers
  import opened Expressions

  datatype QueryResult = QueryResult(columns: nat, rows: seq<Row>)

  type Runner = nat -> Result<QueryResult>

  /** What an expression is evaluated against. `group` holds the rows of the current group, if any. */
  datatype Context = Context(row: Row, schema: Schema, group: Option<seq<Row>>, runner: Option<Runner>)

  // ----- comparing -----

  function ThreeWay(a: int, b: int): int { if a < b then -1 else if a > b then 1 else 0 }

  /** Strings are ordered by their first difference, and a proper prefix comes first. */
  function TextOrder(a: string, b: string): int {
    if a == [] then (if b == [] then 0 else -1)
    else if b == [] then 1
    else if a[0] < b[0] then -1
    else if a[0] > b[0] then 1
    else TextOrder(a[1..], b[1..])
  }

  function BoolOrder(a: bool, b: bool): int { if a == b then 0 else if a then 1 else -1 }

  function CompareEval(left: EvalValue, right: EvalValue): Result<int> {
    if left.kind != right.kind || left.IsNull() then Err(TypeMismatch)
    else match left.kind
      case IntKind => Ok(ThreeWay(left.integer, right.integer))
      case StringKind => Ok(TextOrder(left.text, right.text))
      case BoolKind => Ok(BoolOrder(left.boolean, right.boolean))
      case NullKind => Ok(0)
  }

  // ----- LIKE -----

  /** The pattern matches the value, both read from their ends. */
  predicate Like(value: string, pattern: string)
    decreases |pattern|, |value|
  {
    if pattern == [] then value == []
    else
      var last := pattern[|pattern| - 1];
      if last == '%' then
        Like(value, pattern[..|pattern| - 1]) || (value != [] && Like(value[..|value| - 1], pattern))
      else
        value != [] && (last == '_' || last == value[|value| - 1])
        && Like(value[..|value| - 1], pattern[..|pattern| - 1])
  }

  function Concat(parts: seq<string>): string {
    if parts == [] then [] else Concat(parts[..|parts| - 1]) + parts[|parts| - 1]
  }

  /** One character of a pattern stands for a piece of the value: '%' for any, '_' for any one character. */
  predicate StandsFor(c: char, piece: string) {
    if c == '%' then true else if c == '_' then |piece| == 1 else piece == [c]
  }

  ghost predicate Splits(value: string, pattern: string, parts: seq<string>) {
    |parts| == |pattern| && Concat(parts) == value
    && forall k :: 0 <= k < |parts| ==> StandsFor(pattern[k], parts[k])
  }

  /** Matching means that the value splits into pieces the pattern's characters stand for. */
  lemma LikeSplits(value: string, pattern: string) returns (parts: seq<string>)
    requires Like(value, pattern)
    ensures Splits(value, pattern, parts)
    decreases |pattern|, |value|
  {
    if pattern == [] {
      parts := [];
    } else {
      var n := |pattern| - 1;
      var front := pattern[..n];
      if pattern[n] == '%' && Like(value, front) {
        var before := LikeSplits(value, front);
        parts := Extended(value, front, before, '%', []);
        assert front + ['%'] == pattern;
        assert value + [] == value;
      } else {
        var m := |value| - 1;
        var start := value[..m];
        assert start + [value[m]] == value;
        if pattern[n] == '%' {
          var before := LikeSplits(start, pattern);
          var most := before[..n];
          parts := most + [before[n] + [value[m]]];
          assert parts[..n] == most;
          assert Concat(before) == Concat(most) + before[n];
          assert Concat(parts) == Concat(most) + (before[n] + [value[m]]);
        } else {
          var before := LikeSplits(start, front);
          parts := Extended(start, front, before, pattern[n], [value[m]]);
          assert front + [pattern[n]] == pattern;
        }
      }
    }
  }

  lemma Extended(value: string, pattern: string, parts: seq<string>, c: char, piece: string)
    returns (more: seq<string>)
    requires Splits(value, pattern, parts) && StandsFor(c, piece)
    ensures Splits(value + piece, pattern + [c], more)
  {
    more := parts + [piece];
    assert more[..|more| - 1] == parts;
  }

  lemma {:induction false} SplitIsLike(value: string, pattern: string, parts: seq<string>)
    requires Splits(value, pattern, parts)
    ensures Like(value, pattern)
    decreases |pattern|, |value|
  {
    if pattern != [] {
      var n := |pattern| - 1;
      var most, piece := parts[..n], parts[n];
      if pattern[n] == '%' && piece != [] {
        var m := |piece| - 1;
        var shorter := most + [piece[..m]];
        assert shorter[..n] == most;
        assert piece == piece[..m] + [piece[m]];
        assert value == (Concat(most) + piece[..m]) + [piece[m]];
        assert value[..|value| - 1] == Concat(shorter);
        SplitIsLike(value[..|value| - 1], pattern, shorter);
      } else {
        assert value == Concat(most) + piece;
        assert value[..|value| - |piece|] == Concat(most);
        if pattern[n] == '%' { assert value[..|value| - |piece|] == value; }
        SplitIsLike(value[..|value| - |piece|], pattern[..n], most);
      }
    }
  }

  /** LIKE holds exactly when such a split exists. */
  lemma LikeMeansSplit(value: string, pattern: string)
    ensures Like(value, pattern) <==> exists parts :: Splits(value, pattern, parts)
  {
    if Like(value, pattern) {
      var parts := LikeSplits(value, pattern);
      assert Splits(value, pattern, parts);
    }
    if parts :| Splits(value, pattern, parts) {
      SplitIsLike(value, pattern, parts);
    }
  }

  /** The row of verdicts for one prefix of the value, a verdict for every prefix of the pattern. */
  ghost predicate IsLikeRow(value: string, pattern: string, row: seq<bool>) {
    |row| == |pattern| + 1 && forall j :: 0 <= j <= |pattern| ==> row[j] == Like(value, pattern[..j])
  }

  lemma LikeColumn(value: string, pattern: string, j: nat)
    requires 0 < j <= |pattern|
    ensures pattern[..j][..j - 1] == pattern[..j - 1]
    ensures Like(value, pattern[..j]) ==
            if pattern[j - 1] == '%' then
              Like(value, pattern[..j - 1]) || (value != [] && Like(value[..|value| - 1], pattern[..j]))
            else
              value != [] && (pattern[j - 1] == '_' || pattern[j - 1] == value[|value| - 1])
              && Like(value[..|value| - 1], pattern[..j - 1])
  {
    var upTo := pattern[..j];
    assert upTo[|upTo| - 1] == pattern[j - 1];
    assert upTo[..|upTo| - 1] == pattern[..j - 1];
  }

  /** The table the source fills row by row decides LIKE. */
  method LikeMatches(value: string, pattern: string) returns (matches: bool)
    ensures matches == Like(value, pattern)
  {
    var previous := FirstRow(pattern);
    var i := 0;
    while i < |value|
      invariant 0 <= i <= |value|
      invariant IsLikeRow(value[..i], pattern, previous)
    {
      assert value[..i + 1][..i] == value[..i];
      previous := NextRow(value[..i + 1], pattern, previous);
      i := i + 1;
    }
    assert value[..i] == value && pattern[..|pattern|] == pattern;
    matches := previous[|pattern|];
  }

  method FirstRow(pattern: string) returns (row: seq<bool>)
    ensures IsLikeRow([], pattern, row)
  {
    row := [true];
    var j := 1;
    while j <= |pattern|
      invariant 1 <= j <= |pattern| + 1 && |row| == j
      invariant forall k :: 0 <= k < j ==> row[k] == Like([], pattern[..k])
    {
      LikeColumn([], pattern, j);
      row := row + [row[j - 1] && pattern[j - 1] == '%'];
      j := j + 1;
    }
  }

  method NextRow(value: string, pattern: string, previous: seq<bool>) returns (row: seq<bool>)
    requires value != [] && IsLikeRow(value[..|value| - 1], pattern, previous)
    ensures IsLikeRow(value, pattern, row)
  {
    row := [false];
    var j := 1;
    while j <= |pattern|
      invariant 1 <= j <= |pattern| + 1 && |row| == j
      invariant forall k :: 0 <= k < j ==> row[k] == Like(value, pattern[..k])
    {
      LikeColumn(value, pattern, j);
      var here := false;
      if pattern[j - 1] == '%' {
        here := row[j - 1] || previous[j];
      } else if pattern[j - 1] == '_' || pattern[j - 1] == value[|value| - 1] {
        here := previous[j - 1];
      }
      row := row + [here];
      j := j + 1;
    }
  }

  // ----- operators -----

  predicate IsArithmetic(op: string) { op == "+" || op == "-" || op == "*" || op == "/" }

  /** The integer result, or nothing when it does not fit or the divisor is zero. */
  function Arithmetic(op: string, lhs: int, rhs: int): Option<int>
    requires IsArithmetic(op)
  {
    if op == "+" then SafeAdd(lhs, rhs)
    else if op == "-" then SafeSub(lhs, rhs)
    else if op == "*" then CheckedMul(lhs, rhs)
    else if rhs == 0 || (lhs == INT64_MIN && rhs == -1) then None
    else Some(TruncDiv(lhs, rhs))
  }

  /** A comparison's verdict from a three-way result; any operator not listed reads as `<=`. */
  function Verdict(op: string, order: int): bool {
    if op == "=" then order == 0
    else if op == "!=" || op == "<>" then order != 0
    else if op == ">" then order > 0
    else if op == ">=" then order >= 0
    else if op == "<" then order < 0
    else order <= 0
  }

  /** `and` and `or` once both sides are known. */
  function Logic(conjunction: bool, left: EvalValue, right: EvalValue): Result<EvalValue> {
    if right.kind.BoolKind? && right.boolean != conjunction then Ok(BoolResult(!conjunction))
    else if left.IsNull() || right.IsNull() then Ok(NULL)
    else if !left.kind.BoolKind? || !right.kind.BoolKind? then Err(TypeMismatch)
    else Ok(BoolResult(if conjunction then left.boolean && right.boolean else left.boolean || right.boolean))
  }

  /** Every operator but `and` and `or`. */
  function Apply(op: string, left: EvalValue, right: EvalValue): Result<EvalValue> {
    if left.IsNull() || right.IsNull() then Ok(NULL)
    else if op == "like" || op == "not like" then Ok(BoolResult(Like(left.text, right.text) == (op == "like")))
    else if IsArithmetic(op) then
      match Arithmetic(op, left.integer, right.integer)
      case Some(n) => Ok(IntResult(n))
      case None => Err(if right.integer == 0 && op == "/" then DivisionByZero else Overflow)
    else
      match CompareEval(left, right)
      case Ok(order) => Ok(BoolResult(Verdict(op, order)))
      case Err(error) => Err(error)
  }

  function EvalBinary(op: string, left: Result<EvalValue>, right: Result<EvalValue>): Result<EvalValue> {
    if left.Err? then left
    else if (op == "and" || op == "or") && left.value.kind.BoolKind? && left.value.boolean == (op == "or") then
      Ok(BoolResult(op == "or"))
    else if right.Err? then right
    else if op == "and" || op == "or" then Logic(op == "and", left.value, right.value)
    else Apply(op, left.value, right.value)
  }

  function EvalUnary(op: string, operand: Result<EvalValue>): Result<EvalValue> {
    if operand.Err? || operand.value.IsNull() then operand
    else if op == "not" && operand.value.kind.BoolKind? then Ok(BoolResult(!operand.value.boolean))
    else if op == "-" && operand.value.kind.IntKind? then
      if operand.value.integer == INT64_MIN then Err(Overflow) else Ok(IntResult(-operand.value.integer))
    else Err(TypeMismatch)
  }

  function EvalIsNull(operand: Result<EvalValue>, negated: bool): Result<EvalValue> {
    if operand.Err? then operand else Ok(BoolResult(operand.value.IsNull() != negated))
  }

  /** All three parts are evaluated before any error is reported. */
  function EvalBetween(operand: Result<EvalValue>, lower: Result<EvalValue>, upper: Result<EvalValue>, negated: bool)
    : Result<EvalValue>
  {
    if operand.Err? then operand
    else if lower.Err? then lower
    else if upper.Err? then upper
    else if operand.value.IsNull() || lower.value.IsNull() || upper.value.IsNull() then Ok(NULL)
    else
      var low, high := CompareEval(operand.value, lower.value), CompareEval(operand.value, upper.value);
      if low.Err? then Err(low.error)
      else if high.Err? then Err(high.error)
      else Ok(BoolResult((low.value >= 0 && high.value <= 0) != negated))
  }

  /** The options in turn: an error or a match ends the search. */
  function Choose(operand: EvalValue, options: seq<Result<EvalValue>>, negated: bool, sawNull: bool)
    : Result<EvalValue>
  {
    if options == [] then Ok(if sawNull then NULL else BoolResult(negated))
    else if options[0].Err? then options[0]
    else if options[0].value.IsNull() then Choose(operand, options[1..], negated, true)
    else
      var order := CompareEval(operand, options[0].value);
      if order.Err? then Err(order.error)
      else if order.value == 0 then Ok(BoolResult(!negated))
      else Choose(operand, options[1..], negated, sawNull)
  }

  function EvalIn(operand: Result<EvalValue>, options: seq<Result<EvalValue>>, negated: bool): Result<EvalValue> {
    if operand.Err? then operand
    else if operand.value.IsNull() then Ok(NULL)
    else Choose(operand.value, options, negated, false)
  }

  // ----- aggregates -----

  /** How many of the values are not NULL. */
  function CountValues(values: seq<Result<EvalValue>>): Result<EvalValue> {
    if values == [] then Ok(IntResult(0))
    else
      var rest := CountValues(values[..|values| - 1]);
      var last := values[|values| - 1];
      if rest.Err? then rest
      else if last.Err? then last
      else if last.value.IsNull() then rest
      else Ok(IntResult(rest.value.integer + 1))
  }

  /** What an aggregate has gathered: nothing yet, or a value and how many values went into it. */
  datatype Tally = Empty | Tally(gathered: EvalValue, count: nat)

  /** One more value that is not NULL. */
  function Gather(kind: AggregateKind, tally: Tally, v: EvalValue): Result<Tally> {
    if tally.Empty? then Ok(Tally(v, 1))
    else
      var Tally(gathered, count) := tally;
      if kind.Sum? || kind.Avg? then
        match SafeAdd(gathered.integer, v.integer)
        case Some(n) => Ok(Tally(gathered.(integer := n), count + 1))
        case None => Err(AggregateOverflow)
      else
        match CompareEval(v, gathered)
        case Err(error) => Err(error)
        case Ok(order) =>
          Ok(Tally(if (kind.Min? && order < 0) || (kind.Max? && order > 0) then v else gathered, count + 1))
  }

  function GatherAll(kind: AggregateKind, values: seq<Result<EvalValue>>): Result<Tally> {
    if values == [] then Ok(Empty)
    else
      var rest := GatherAll(kind, values[..|values| - 1]);
      var last := values[|values| - 1];
      if rest.Err? then rest
      else if last.Err? then Err(last.error)
      else if last.value.IsNull() then rest
      else Gather(kind, rest.value, last.value)
  }

  function Finish(kind: AggregateKind, tally: Result<Tally>): Result<EvalValue> {
    match tally
    case Err(error) => Err(error)
    case Ok(Empty) => Ok(NULL)
    case Ok(Tally(gathered, count)) =>
      if kind.Avg? && count > 0 then Ok(gathered.(integer := TruncDiv(gathered.integer, count))) else Ok(gathered)
  }

  function EvalAggregate(kind: AggregateKind, values: seq<Result<EvalValue>>): Result<EvalValue> {
    if kind.Count? then CountValues(values) else Finish(kind, GatherAll(kind, values))
  }

  // ----- subqueries -----

  /** The first column of every result row; a row without columns is an error. */
  function FirstColumn(rows: seq<Row>): seq<Result<EvalValue>> {
    seq(|rows|, i requires 0 <= i < |rows| => if rows[i] == [] then Err(SubqueryError) else Ok(FromValue(rows[i][0])))
  }

  function EvalSubquery(kind: SubqueryKind, answer: Result<QueryResult>, operand: Result<EvalValue>, negated: bool)
    : Result<EvalValue>
  {
    if answer.Err? then Err(answer.error)
    else
      var QueryResult(columns, rows) := answer.value;
      if kind.Exists? then Ok(BoolResult((rows != []) != negated))
      else if columns != 1 then Err(SubqueryError)
      else if kind.Scalar? then
        if |rows| > 1 then Err(SubqueryError) else if rows == [] then Ok(NULL) else FirstColumn(rows)[0]
      else EvalIn(operand, FirstColumn(rows), negated)
  }

  // ----- expressions -----

  function EvalLiteral(kind: LiteralKind, integer: int, text: string): EvalValue {
    match kind
    case IntLiteral => IntResult(integer)
    case StringLiteral => StringResult(text)
    case BoolLiteral => BoolResult(text == "true")
    case NullLiteral => NULL
  }

  function EvalColumn(name: string, row: Row, schema: Schema): Result<EvalValue> {
    var index := FindColumn(schema, name);
    if index == |schema| then Err(UnknownColumn)
    else if index >= |row| then Err(RowTooShort)
    else Ok(FromValue(row[index]))
  }

  /** One row of a group, looked at on its own. */
  function OnRow(ctx: Context, row: Row): Context { ctx.(row := row, group := None) }

  function Eval(e: Expr, ctx: Context): Result<EvalValue> {
    match e
    case Missing => Err(EmptyExpression)
    case Column(_, name) => EvalColumn(name, ctx.row, ctx.schema)
    case Literal(kind, integer, text) => Ok(EvalLiteral(kind, integer, text))
    case Unary(op, operand) => EvalUnary(op, Eval(operand, ctx))
    case IsNull(operand, negated) => EvalIsNull(Eval(operand, ctx), negated)
    case Between(operand, lower, upper, negated) =>
      EvalBetween(Eval(operand, ctx), Eval(lower, ctx), Eval(upper, ctx), negated)
    case In(operand, options, negated) =>
      EvalIn(Eval(operand, ctx), seq(|options|, i requires 0 <= i < |options| => Eval(options[i], ctx)), negated)
    case Aggregate(kind, star, argument) =>
      if ctx.group.None? then Err(NoGroup)
      else if kind.Count? && star then Ok(IntResult(|ctx.group.value|))
      else
        var rows := ctx.group.value;
        EvalAggregate(kind, seq(|rows|, i requires 0 <= i < |rows| => Eval(argument, OnRow(ctx, rows[i]))))
    case Subquery(kind, query, operand, negated) =>
      if ctx.runner.None? then Err(SubqueryError)
      else EvalSubquery(kind, ctx.runner.value(query), Eval(operand, ctx), negated)
    case Binary(op, left, right) => EvalBinary(op, Eval(left, ctx), Eval(right, ctx))
  }

  function Options(options: seq<Expr>, ctx: Context): seq<Result<EvalValue>> {
    seq(|options|, i requires 0 <= i < |options| => Eval(options[i], ctx))
  }

  function OnRows(argument: Expr, rows: seq<Row>, ctx: Context): seq<Result<EvalValue>> {
    seq(|rows|, i requires 0 <= i < |rows| => Eval(argument, OnRow(ctx, rows[i])))
  }

  // ----- the evaluator -----

  /** Evaluates an expression, looking no further than an error, a deciding side of `and` and `or`, or a match. */
  method Evaluate(e: Expr, ctx: Context) returns (r: Result<EvalValue>)
    ensures r == Eval(e, ctx)
    decreases e, 2
  {
    match e
    case Missing => r := Err(EmptyExpression);
    case Column(_, name) => r := EvalColumn(name, ctx.row, ctx.schema);
    case Literal(kind, integer, text) => r := Ok(EvalLiteral(kind, integer, text));
    case Unary(op, operand) =>
      var v := Evaluate(operand, ctx);
      r := EvalUnary(op, v);
    case IsNull(operand, negated) =>
      var v := Evaluate(operand, ctx);
      r := EvalIsNull(v, negated);
    case Between(operand, lower, upper, negated) =>
      var v := Evaluate(operand, ctx);
      var low := Evaluate(lower, ctx);
      var high := Evaluate(upper, ctx);
      r := EvalBetween(v, low, high, negated);
    case In(_, _, _) => r := EvaluateIn(e, ctx);
    case Subquery(kind, query, operand, negated) =>
      if ctx.runner.None? { return Err(SubqueryError); }
      var answer := ctx.runner.value(query);
      var v := Err(SubqueryError);
      if kind.InSubquery? { v := Evaluate(operand, ctx); }
      r := EvalSubquery(kind, answer, v, negated);
    case Aggregate(_, _, _) => r := EvaluateAggregate(e, ctx);
    case Binary(_, _, _) => r := EvaluateBinary(e, ctx);
  }

  method EvaluateBinary(e: Expr, ctx: Context) returns (r: Result<EvalValue>)
    requires e.Binary?
    ensures r == Eval(e, ctx)
    decreases e, 1
  {
    var left := Evaluate(e.left, ctx);
    if left.Err? { return left; }
    if (e.op == "and" || e.op == "or") && left.value.kind.BoolKind? && left.value.boolean == (e.op == "or") {
      return Ok(BoolResult(e.op == "or"));
    }
    var right := Evaluate(e.right, ctx);
    if right.Err? { return right; }
    if e.op == "and" || e.op == "or" { return Logic(e.op == "and", left.value, right.value); }
    if e.op == "like" || e.op == "not like" {
      if left.value.IsNull() || right.value.IsNull() { return Ok(NULL); }
      var matches := LikeMatches(left.value.text, right.value.text);
      return Ok(BoolResult(matches == (e.op == "like")));
    }
    return Apply(e.op, left.value, right.value);
  }

  /** The loop over the options of an IN list, which stops at the first error or match. */
  method EvaluateIn(e: Expr, ctx: Context) returns (r: Result<EvalValue>)
    requires e.In?
    ensures r == Eval(e, ctx)
    decreases e, 1
  {
    var v := Evaluate(e.operand, ctx);
    ghost var all := Options(e.options, ctx);
    if v.Err? { return v; }
    if v.value.IsNull() { return Ok(NULL); }
    var sawNull := false;
    var i := 0;
    while i < |e.options|
      invariant 0 <= i <= |e.options|
      invariant Choose(v.value, all, e.negated, false) == Choose(v.value, all[i..], e.negated, sawNull)
    {
      var option := Evaluate(e.options[i], ctx);
      assert all[i..][0] == option && all[i..][1..] == all[i + 1..];
      if option.Err? { return option; }
      if option.value.IsNull() {
        sawNull := true;
      } else {
        var order := CompareEval(v.value, option.value);
        if order.Err? { return Err(order.error); }
        if order.value == 0 { return Ok(BoolResult(!e.negated)); }
      }
      i := i + 1;
    }
    return Ok(if sawNull then NULL else BoolResult(e.negated));
  }

  lemma CountUpTo(values: seq<Result<EvalValue>>, n: nat)
    requires n <= |values| && CountValues(values[..n]).Err?
    ensures CountValues(values) == CountValues(values[..n])
    decreases |values|
  {
    if n == |values| {
      assert values[..n] == values;
    } else {
      var front := values[..|values| - 1];
      assert front[..n] == values[..n];
      CountUpTo(front, n);
    }
  }

  lemma GatherUpTo(kind: AggregateKind, values: seq<Result<EvalValue>>, n: nat)
    requires n <= |values| && GatherAll(kind, values[..n]).Err?
    ensures GatherAll(kind, values) == GatherAll(kind, values[..n])
    decreases |values|
  {
    if n == |values| {
      assert values[..n] == values;
    } else {
      var front := values[..|values| - 1];
      assert front[..n] == values[..n];
      GatherUpTo(kind, front, n);
    }
  }

  /** One value more. */
  lemma CountStep(values: seq<Result<EvalValue>>, i: nat)
    requires i < |values| && CountValues(values[..i]).Ok?
    ensures var before := CountValues(values[..i]);
            CountValues(values[..i + 1])
            == if values[i].Err? then values[i]
               else if values[i].value.IsNull() then before
               else Ok(IntResult(before.value.integer + 1))
    ensures values[i].Err? ==> CountValues(values) == values[i]
  {
    var m := i + 1;
    assert values[..m][..i] == values[..i] && values[..m][i] == values[i];
    if values[i].Err? { CountUpTo(values, m); }
  }

  lemma GatherStep(kind: AggregateKind, values: seq<Result<EvalValue>>, i: nat, tally: Tally)
    requires i < |values| && GatherAll(kind, values[..i]) == Ok(tally)
    ensures values[i].Err? ==> GatherAll(kind, values) == Err(values[i].error)
    ensures values[i].Ok? && values[i].value.IsNull() ==> GatherAll(kind, values[..i + 1]) == Ok(tally)
    ensures values[i].Ok? && !values[i].value.IsNull() ==>
              var next := Gather(kind, tally, values[i].value);
              GatherAll(kind, values[..i + 1]) == next && (next.Err? ==> GatherAll(kind, values) == next)
  {
    var m := i + 1;
    assert values[..m][..i] == values[..i] && values[..m][i] == values[i];
    if GatherAll(kind, values[..m]).Err? { GatherUpTo(kind, values, m); }
  }

  method EvaluateAggregate(e: Expr, ctx: Context) returns (r: Result<EvalValue>)
    requires e.Aggregate?
    ensures r == Eval(e, ctx)
    decreases e, 1
  {
    if ctx.group.None? { return Err(NoGroup); }
    if e.aggregate.Count? {
      if e.star { return Ok(IntResult(|ctx.group.value|)); }
      r := EvaluateCount(e, ctx.group.value, ctx);
    } else {
      r := EvaluateGathering(e, ctx.group.value, ctx);
    }
  }

  method EvaluateCount(e: Expr, rows: seq<Row>, ctx: Context) returns (r: Result<EvalValue>)
    requires e.Aggregate?
    ensures r == CountValues(OnRows(e.argument, rows, ctx))
    decreases e, 0
  {
    ghost var all := OnRows(e.argument, rows, ctx);
    var count := 0;
    var i := 0;
    while i < |rows|
      invariant 0 <= i <= |rows|
      invariant CountValues(all[..i]) == Ok(IntResult(count))
    {
      var value := Evaluate(e.argument, OnRow(ctx, rows[i]));
      CountStep(all, i);
      if value.Err? { return value; }
      if !value.value.IsNull() { count := count + 1; }
      i := i + 1;
    }
    assert all[..i] == all;
    return Ok(IntResult(count));
  }

  /** The loop over a group for every aggregate but COUNT. */
  method EvaluateGathering(e: Expr, rows: seq<Row>, ctx: Context) returns (r: Result<EvalValue>)
    requires e.Aggregate?
    ensures r == Finish(e.aggregate, GatherAll(e.aggregate, OnRows(e.argument, rows, ctx)))
    decreases e, 0
  {
    ghost var all := OnRows(e.argument, rows, ctx);
    var tally := Empty;
    var i := 0;
    while i < |rows|
      invariant 0 <= i <= |rows|
      invariant GatherAll(e.aggregate, all[..i]) == Ok(tally)
    {
      var value := Evaluate(e.argument, OnRow(ctx, rows[i]));
      GatherStep(e.aggregate, all, i, tally);
      if value.Err? { return value; }
      if !value.value.IsNull() {
        var next := Gather(e.aggregate, tally, value.value);
        if next.Err? { return Err(next.error); }
        tally := next.value;
      }
      i := i + 1;
    }
    assert all[..i] == all;
    return Finish(e.aggregate, Ok(tally));
  }

  // ----- what the loops compute -----

  /** An IN list without errors: true when some option equals the operand, otherwise unknown when some
      option is NULL, otherwise false; NOT IN turns true and false round. */
  lemma {:induction false} ChooseMeans(operand: EvalValue, options: seq<Result<EvalValue>>, negated: bool,
                                       sawNull: bool)
    requires forall i :: 0 <= i < |options| ==>
               options[i].Ok? && (options[i].value.IsNull() || CompareEval(operand, options[i].value).Ok?)
    ensures var found := exists i :: 0 <= i < |options| && !options[i].value.IsNull()
                                     && CompareEval(operand, options[i].value) == Ok(0);
            var unknown := sawNull || exists i :: 0 <= i < |options| && options[i].value.IsNull();
            Choose(operand, options, negated, sawNull)
            == Ok(if found then BoolResult(!negated) else if unknown then NULL else BoolResult(negated))
  {
    if options != [] {
      var rest := options[1..];
      assert forall i :: 0 <= i < |rest| ==> rest[i] == options[i + 1];
      assert forall i :: 0 < i < |options| ==> options[i] == rest[i - 1];
      ChooseMeans(operand, rest, negated, sawNull || options[0].value.IsNull());
    }
  }

  /** The truth values in order: false, unknown, true. */
  predicate IsTruth(v: EvalValue) { v == NULL || v == BoolResult(true) || v == BoolResult(false) }

  function Truth(v: EvalValue): int { if v.IsNull() then 1 else if v.boolean then 2 else 0 }

  /** `and` takes the smaller truth value, `or` the larger and `not` the opposite one. */
  lemma LogicIsKleene(a: EvalValue, b: EvalValue)
    requires IsTruth(a) && IsTruth(b)
    ensures var both := EvalBinary("and", Ok(a), Ok(b));
            both.Ok? && IsTruth(both.value) && Truth(both.value) == if Truth(a) < Truth(b) then Truth(a) else Truth(b)
    ensures var either := EvalBinary("or", Ok(a), Ok(b));
            either.Ok? && IsTruth(either.value)
            && Truth(either.value) == if Truth(a) < Truth(b) then Truth(b) else Truth(a)
    ensures var opposite := EvalUnary("not", Ok(a));
            opposite.Ok? && IsTruth(opposite.value) && Truth(opposite.value) == 2 - Truth(a)
  {
  }

  /** The integers among the values. */
  function Integers(values: seq<Result<EvalValue>>): seq<int>
    requires forall v :: v in values ==> v.Ok?
  {
    if values == [] then []
    else
      var front := Integers(values[..|values| - 1]);
      var last := values[|values| - 1].value;
      if last.IsNull() then front else front + [last.integer]
  }

  function Total(numbers: seq<int>): int {
    if numbers == [] then 0 else Total(numbers[..|numbers| - 1]) + numbers[|numbers| - 1]
  }

  predicate AllIntegers(values: seq<Result<EvalValue>>) {
    forall v :: v in values ==>
        v.Ok? && (v.value == NULL || (v.value == IntResult(v.value.integer) && InInt64(v.value.integer)))
  }

  lemma {:induction false} CountMeans(values: seq<Result<EvalValue>>)
    requires forall v :: v in values ==> v.Ok?
    ensures CountValues(values) == Ok(IntResult(|Integers(values)|))
  {
    if values != [] {
      var front, last := values[..|values| - 1], values[|values| - 1];
      assert last in values;
      CountMeans(front);
      assert Integers(values)
          == if last.value.IsNull() then Integers(front) else Integers(front) + [last.value.integer];
    }
  }

  /** The sum of the first `k` numbers does not fit. */
  predicate OverflowsAt(numbers: seq<int>, k: nat) { k <= |numbers| && !InInt64(Total(numbers[..k])) }

  lemma TotalOfOneMore(numbers: seq<int>, n: int)
    ensures Total(numbers + [n]) == Total(numbers) + n
    ensures forall k: nat :: OverflowsAt(numbers, k) ==> OverflowsAt(numbers + [n], k)
    ensures !InInt64(Total(numbers) + n) ==> OverflowsAt(numbers + [n], |numbers| + 1)
  {
    var more := numbers + [n];
    assert more[..|numbers|] == numbers && more[..|more|] == more;
    forall k: nat | OverflowsAt(numbers, k) ensures OverflowsAt(more, k) {
      assert more[..k] == numbers[..k];
    }
  }

  /** What adding up has come to: the exact total so far, or an overflow on the way. */
  ghost predicate IsSum(sum: Result<Tally>, numbers: seq<int>) {
    match sum
    case Ok(Empty) => numbers == []
    case Ok(Tally(v, n)) => n == |numbers| > 0 && InInt64(Total(numbers)) && v == IntResult(Total(numbers))
    case Err(error) => error == AggregateOverflow && exists k: nat :: OverflowsAt(numbers, k)
  }

  lemma SumStep(kind: AggregateKind, tally: Tally, numbers: seq<int>, n: int)
    requires (kind.Sum? || kind.Avg?) && IsSum(Ok(tally), numbers) && InInt64(n)
    ensures IsSum(Gather(kind, tally, IntResult(n)), numbers + [n])
  {
    TotalOfOneMore(numbers, n);
    if tally.Tally? { SafeAddIsExact(Total(numbers), n); }
  }

  /** SUM is the exact total of the integers, or an overflow: no wrapped number ever comes out. */
  lemma {:induction false} SumMeans(kind: AggregateKind, values: seq<Result<EvalValue>>)
    requires (kind.Sum? || kind.Avg?) && AllIntegers(values)
    ensures IsSum(GatherAll(kind, values), Integers(values))
  {
    if values != [] {
      var front, last := values[..|values| - 1], values[|values| - 1];
      assert last in values;
      SumMeans(kind, front);
      if last.value != NULL {
        if GatherAll(kind, front).Ok? {
          SumStep(kind, GatherAll(kind, front).value, Integers(front), last.value.integer);
        } else {
          TotalOfOneMore(Integers(front), last.value.integer);
        }
      }
    }
  }

  /** MIN and MAX give one of the values, and none lies beyond it. */
  lemma {:induction false} ExtremeMeans(kind: AggregateKind, values: seq<Result<EvalValue>>)
    requires (kind.Min? || kind.Max?) && AllIntegers(values)
    ensures var numbers := Integers(values);
            match GatherAll(kind, values)
            case Ok(Empty) => numbers == []
            case Ok(Tally(v, n)) => n == |numbers| && v == IntResult(v.integer) && v.integer in numbers
                                    && forall x :: x in numbers ==> if kind.Min? then v.integer <= x else x <= v.integer
            case Err(_) => false
  {
    if values != [] {
      ExtremeMeans(kind, values[..|values| - 1]);
      assert values[|values| - 1] in values;
    }
  }
}
