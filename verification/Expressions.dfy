/** The expression language: its syntax tree and its values. */
module Expressions {
  import opened Wrappers

  const INT64_MIN: int := -0x8000_0000_0000_0000
  const INT64_MAX: int := 0x7FFF_FFFF_FFFF_FFFF

  predicate InInt64(n: int) { INT64_MIN <= n <= INT64_MAX }

  datatype LiteralKind = IntLiteral | StringLiteral | BoolLiteral | NullLiteral
  datatype AggregateKind = Count | Sum | Avg | Max | Min
  datatype SubqueryKind = Scalar | Exists | InSubquery

  /** `Missing` stands for an absent child. A subquery is named by a number; what it returns is up to
      the evaluation context. */
  datatype Expr =
    | Missing
    | Column(tableName: string, name: string)
    | Literal(kind: LiteralKind, integer: int, text: string)
    | Binary(op: string, left: Expr, right: Expr)
    | Unary(op: string, operand: Expr)
    | IsNull(operand: Expr, negated: bool)
    | Between(operand: Expr, lower: Expr, upper: Expr, negated: bool)
    | In(operand: Expr, options: seq<Expr>, negated: bool)
    | Subquery(subquery: SubqueryKind, query: nat, operand: Expr, negated: bool)
    | Aggregate(aggregate: AggregateKind, star: bool, argument: Expr)

  /** What a stored row holds. */
  datatype Value = NullValue | IntValue(integer: int) | TextValue(text: string)

  type Row = seq<Value>

  datatype DataType = Int | Varchar

  datatype ColumnDef = ColumnDef(name: string, dataType: DataType)

  type Schema = seq<ColumnDef>

  /** What an expression evaluates to: a kind, and a field for every kind. */
  datatype ValueKind = NullKind | IntKind | StringKind | BoolKind

  datatype EvalValue = EvalValue(kind: ValueKind, integer: int, text: string, boolean: bool) {
    predicate IsNull() { kind.NullKind? }
  }

  const NULL := EvalValue(NullKind, 0, "", false)

  function IntResult(n: int): EvalValue { EvalValue(IntKind, n, "", false) }

  function StringResult(s: string): EvalValue { EvalValue(StringKind, 0, s, false) }

  function BoolResult(b: bool): EvalValue { EvalValue(BoolKind, 0, "", b) }

  datatype EvalError =
    | EmptyExpression
    | UnknownColumn
    | RowTooShort
    | TypeMismatch
    | Overflow
    | DivisionByZero
    | AggregateOverflow
    | NoGroup
    | SubqueryError

  datatype Result<+T> = Ok(value: T) | Err(error: EvalError)

  function FromValue(v: Value): EvalValue {
    match v
    case NullValue => NULL
    case IntValue(n) => IntResult(n)
    case TextValue(s) => StringResult(s)
  }

  /** The first column of that name. */
  function FindColumn(schema: Schema, name: string): (i: nat)
    ensures i <= |schema|
    ensures i < |schema| ==> schema[i].name == name
    ensures forall j :: 0 <= j < i ==> schema[j].name != name
  {
    if schema == [] then 0 else if schema[0].name == name then 0 else 1 + FindColumn(schema[1..], name)
  }

  // ----- 64-bit arithmetic -----

  /** Division rounds towards zero. */
  function TruncDiv(a: int, b: int): int
    requires b != 0
  {
    if a >= 0 then (if b > 0 then a / b else -(a / -b))
    else (if b > 0 then -(-a / b) else -a / -b)
  }

  lemma SignsOfProduct(x: int, y: int)
    ensures -x * -y == x * y && x * -y == -(x * y) && -x * y == -(x * y)
  {
  }

  /** The remainder has the sign of the dividend and is smaller than the divisor. */
  lemma TruncDivIs(a: int, b: int)
    requires b != 0
    ensures var q := TruncDiv(a, b);
            var r := a - b * q;
            (a >= 0 ==> 0 <= r) && (a <= 0 ==> r <= 0) && (b > 0 ==> -b < r < b) && (b < 0 ==> b < r < -b)
  {
    var m := if a >= 0 then a else -a;
    var d := if b > 0 then b else -b;
    var q, r := m / d, m % d;
    assert m == d * q + r && 0 <= r < d;
    SignsOfProduct(d, q);
    var t := TruncDiv(a, b);
    assert t == (if (a >= 0) == (b > 0) then q else -q);
    assert b * t == (if a >= 0 then d * q else -(d * q));
  }

  function SafeAdd(lhs: int, rhs: int): Option<int> {
    if (rhs > 0 && lhs > INT64_MAX - rhs) || (rhs < 0 && lhs < INT64_MIN - rhs) then None else Some(lhs + rhs)
  }

  function SafeSub(lhs: int, rhs: int): Option<int> {
    if (rhs > 0 && lhs < INT64_MIN + rhs) || (rhs < 0 && lhs > INT64_MAX + rhs) then None else Some(lhs - rhs)
  }

  function SafeMul(lhs: int, rhs: int): Option<int> {
    if lhs == 0 || rhs == 0 then Some(0)
    else if lhs == -1 && rhs == INT64_MIN then None
    else if rhs == -1 && lhs == INT64_MIN then None
    else if lhs > 0 && rhs > 0 && lhs > TruncDiv(INT64_MAX, rhs) then None
    else if lhs > 0 && rhs < 0 && rhs < TruncDiv(INT64_MIN, lhs) then None
    else if lhs < 0 && rhs > 0 && lhs < TruncDiv(INT64_MIN, rhs) then None
    else if lhs < 0 && rhs < 0 && lhs < TruncDiv(INT64_MAX, rhs) then None
    else Some(lhs * rhs)
  }

  /** The multiplication check as the evaluator writes it. */
  function CheckedMul(lhs: int, rhs: int): Option<int> {
    if lhs == 0 || rhs == 0 then Some(0)
    else if (lhs == -1 && rhs == INT64_MIN) || (rhs == -1 && lhs == INT64_MIN) then None
    else
      var valid :=
        if lhs > 0 && rhs > 0 then lhs <= TruncDiv(INT64_MAX, rhs)
        else if lhs > 0 then rhs >= TruncDiv(INT64_MIN, lhs)
        else if rhs > 0 then lhs >= TruncDiv(INT64_MIN, rhs)
        else lhs >= TruncDiv(INT64_MAX, rhs);
      if valid then Some(lhs * rhs) else None
  }

  lemma ProductBound(a: int, b: int, m: int)
    requires a > 0 && b > 0 && m >= 0
    ensures a <= m / b <==> a * b <= m
  {
    var q, r := m / b, m % b;
    assert m == b * q + r && 0 <= r < b;
    if a <= q { MulLe(a, q, b); } else { MulLe(q + 1, a, b); }
  }

  lemma MulLe(a: int, b: int, c: int)
    requires a <= b && c >= 0
    ensures a * c <= b * c
  {
  }

  /** The two ways to write the check agree. */
  lemma CheckedMulIsSafeMul(lhs: int, rhs: int)
    ensures CheckedMul(lhs, rhs) == SafeMul(lhs, rhs)
  {
  }

  /** A product is computed exactly when it fits. */
  lemma SafeMulIsExact(lhs: int, rhs: int)
    requires InInt64(lhs) && InInt64(rhs)
    ensures SafeMul(lhs, rhs) == if InInt64(lhs * rhs) then Some(lhs * rhs) else None
  {
    if lhs > 0 && rhs > 0 {
      ProductBound(lhs, rhs, INT64_MAX);
      MulSign(lhs, rhs);
    } else if lhs > 0 && rhs < 0 {
      ProductBound(-rhs, lhs, -INT64_MIN);
      assert -rhs * lhs == -(lhs * rhs);
      MulSign(lhs, -rhs);
    } else if lhs < 0 && rhs > 0 {
      ProductBound(-lhs, rhs, -INT64_MIN);
      assert -lhs * rhs == -(lhs * rhs);
      MulSign(-lhs, rhs);
    } else if lhs < 0 && rhs < 0 {
      ProductBound(-lhs, -rhs, INT64_MAX);
      assert -lhs * -rhs == lhs * rhs;
      MulSign(-lhs, -rhs);
    }
  }

  lemma MulSign(a: int, b: int)
    requires a > 0 && b > 0
    ensures a * b > 0
  {
  }

  lemma SafeAddIsExact(lhs: int, rhs: int)
    requires InInt64(lhs) && InInt64(rhs)
    ensures SafeAdd(lhs, rhs) == if InInt64(lhs + rhs) then Some(lhs + rhs) else None
    ensures SafeSub(lhs, rhs) == if InInt64(lhs - rhs) then Some(lhs - rhs) else None
  {
  }

  /** A quotient fits unless it is the one that does not. */
  lemma QuotientFits(lhs: int, rhs: int)
    requires InInt64(lhs) && InInt64(rhs) && rhs != 0
    ensures InInt64(TruncDiv(lhs, rhs)) <==> !(lhs == INT64_MIN && rhs == -1)
  {
    if rhs == -1 {
      assert TruncDiv(lhs, rhs) == -lhs;
    } else {
      TruncDivIs(lhs, rhs);
      QuotientShrinks(lhs, rhs);
    }
  }

  lemma QuotientShrinks(a: int, b: int)
    requires b != 0 && b != -1
    ensures (a >= 0 ==> -a <= TruncDiv(a, b) <= a) && (a <= 0 ==> a <= TruncDiv(a, b) <= -a)
    ensures a < 0 ==> TruncDiv(a, b) < -a
  {
    var m := if a >= 0 then a else -a;
    var d := if b > 0 then b else -b;
    DivBound(m, d);
    assert TruncDiv(a, b) == m / d || TruncDiv(a, b) == -(m / d);
  }

  lemma DivBound(m: int, d: int)
    requires m >= 0 && d > 0
    ensures 0 <= m / d <= m
    ensures m > 0 && d > 1 ==> m / d < m
  {
    var q, r := m / d, m % d;
    assert m == d * q + r && 0 <= r < d;
    if q > 0 {
      MulLe(1, d, q);
      if d > 1 { MulLe(2, d, q); }
    }
  }
}
