/** What comparisons, arithmetic and aggregates mean, in terms of the values alone. */
module EvalMeaning {
  import opened Wrappers
  import opened Expressions
  import opened Evaluator
  import opened Folding

  // ----- the order of values -----

  /** The texts agree up to some place, where `s` ends or has the smaller character. */
  ghost predicate TextBefore(s: string, t: string) {
    exists n :: IsBreak(s, t, n)
  }

  predicate IsBreak(s: string, t: string, n: nat) {
    n <= |s| && n < |t| && s[..n] == t[..n] && (n < |s| ==> s[n] < t[n])
  }

  predicate IsValue(v: EvalValue) {
    v == NULL || v == IntResult(v.integer) || v == StringResult(v.text) || v == BoolResult(v.boolean)
  }

  predicate Comparable(v: EvalValue, w: EvalValue) {
    IsValue(v) && IsValue(w) && v.kind == w.kind && v != NULL
  }

  /** Integers by size, texts by their first difference, FALSE below TRUE. */
  ghost predicate Below(v: EvalValue, w: EvalValue) {
    match v.kind
    case NullKind => false
    case IntKind => v.integer < w.integer
    case StringKind => TextBefore(v.text, w.text)
    case BoolKind => !v.boolean && w.boolean
  }

  lemma BreakFurther(s: string, t: string, n: nat)
    requires s != [] && t != [] && s[0] == t[0] && IsBreak(s[1..], t[1..], n)
    ensures IsBreak(s, t, n + 1)
  {
    var m := n + 1;
    assert s == [s[0]] + s[1..] && t == [t[0]] + t[1..];
    assert s[..m] == [s[0]] + s[1..][..n] && t[..m] == [t[0]] + t[1..][..n];
  }

  lemma BreakNearer(s: string, t: string, n: nat)
    requires s != [] && t != [] && s[0] == t[0] && IsBreak(s, t, n)
    ensures n > 0 && IsBreak(s[1..], t[1..], n - 1)
  {
    var m := n - 1;
    assert s[1..][..m] == s[..n][1..] && t[1..][..m] == t[..n][1..];
  }

  lemma BreakIsLater(s: string, t: string, n: nat)
    requires s != [] && t != [] && IsBreak(s, t, n)
    ensures n > 0 ==> s[0] == t[0]
  {
    if n > 0 { assert s[..n][0] == s[0] && t[..n][0] == t[0]; }
  }

  lemma {:induction false} TextOrderIs(s: string, t: string)
    ensures TextOrder(s, t) < 0 <==> TextBefore(s, t)
    ensures TextOrder(s, t) == 0 <==> s == t
  {
    if s == [] {
      if t != [] { assert IsBreak(s, t, 0); }
    } else if t != [] && s[0] == t[0] {
      TextOrderIs(s[1..], t[1..]);
      assert s == [s[0]] + s[1..] && t == [t[0]] + t[1..];
      if n: nat :| IsBreak(s[1..], t[1..], n) { BreakFurther(s, t, n); }
      if n: nat :| IsBreak(s, t, n) { BreakNearer(s, t, n); }
    } else if t != [] {
      if s[0] < t[0] { assert IsBreak(s, t, 0); }
      if n: nat :| IsBreak(s, t, n) { BreakIsLater(s, t, n); }
    }
  }

  lemma {:induction false} TextOrderTurns(s: string, t: string)
    ensures TextOrder(s, t) > 0 <==> TextOrder(t, s) < 0
  {
    if s != [] && t != [] && s[0] == t[0] { TextOrderTurns(s[1..], t[1..]); }
  }

  /** Of two values of one kind exactly one of three things holds. */
  lemma OneOfThree(v: EvalValue, w: EvalValue)
    requires Comparable(v, w)
    ensures if v == w then !Below(v, w) && !Below(w, v) else Below(v, w) != Below(w, v)
  {
    TextOrderIs(v.text, w.text);
    TextOrderIs(w.text, v.text);
    TextOrderTurns(v.text, w.text);
    TextOrderTurns(w.text, v.text);
  }

  lemma CompareIs(v: EvalValue, w: EvalValue)
    requires IsValue(v) && IsValue(w)
    ensures if Comparable(v, w) then
              CompareEval(v, w).Ok?
              && (CompareEval(v, w).value < 0 <==> Below(v, w)) && (CompareEval(v, w).value == 0 <==> v == w)
              && (CompareEval(v, w).value > 0 <==> Below(w, v))
            else CompareEval(v, w) == Err(TypeMismatch)
  {
    TextOrderIs(v.text, w.text);
    TextOrderIs(w.text, v.text);
    TextOrderTurns(v.text, w.text);
  }

  // ----- comparisons -----

  /** What a comparison says of two values of one kind. */
  ghost predicate Holds(op: string, v: EvalValue, w: EvalValue)
    requires IsComparison(op)
  {
    match op
    case "=" => v == w
    case "<" => Below(v, w)
    case ">" => Below(w, v)
    case "<=" => v == w || Below(v, w)
    case ">=" => v == w || Below(w, v)
    case _ => v != w
  }

  /** A comparison is unknown on NULL, an error on values of two kinds, and otherwise says how they lie in their
      order. */
  lemma ComparisonMeans(op: string, v: EvalValue, w: EvalValue)
    requires IsComparison(op) && IsValue(v) && IsValue(w)
    ensures EvalBinary(op, Ok(v), Ok(w))
         == if v == NULL || w == NULL then Ok(NULL)
            else if v.kind != w.kind then Err(TypeMismatch)
            else Ok(BoolResult(Holds(op, v, w)))
  {
    CompareIs(v, w);
    if Comparable(v, w) {
      OneOfThree(v, w);
      VerdictIs(op, v, w, CompareEval(v, w).value);
    }
    NotLogic(op);
  }

  lemma NotLogic(op: string)
    requires IsComparison(op)
    ensures op != "and" && op != "or" && op != "like" && op != "not like" && !IsArithmetic(op)
  {
  }

  lemma VerdictIs(op: string, v: EvalValue, w: EvalValue, order: int)
    requires IsComparison(op) && (order < 0 <==> Below(v, w)) && (order == 0 <==> v == w)
             && (order > 0 <==> Below(w, v))
    ensures Verdict(op, order) == Holds(op, v, w)
  {
  }

  /** On integers that is the order of the integers. */
  lemma IntegersCompare(op: string, a: int, b: int)
    requires IsComparison(op)
    ensures EvalBinary(op, Ok(IntResult(a)), Ok(IntResult(b)))
         == Ok(BoolResult(match op
                          case "=" => a == b
                          case "<" => a < b
                          case ">" => a > b
                          case "<=" => a <= b
                          case ">=" => a >= b
                          case _ => a != b))
  {
    ComparisonMeans(op, IntResult(a), IntResult(b));
  }

  /** BETWEEN takes in both ends. */
  lemma BetweenMeans(x: EvalValue, lower: EvalValue, upper: EvalValue, negated: bool)
    requires IsValue(x) && IsValue(lower) && IsValue(upper)
    ensures EvalBetween(Ok(x), Ok(lower), Ok(upper), negated)
         == if x == NULL || lower == NULL || upper == NULL then Ok(NULL)
            else if x.kind != lower.kind || x.kind != upper.kind then Err(TypeMismatch)
            else Ok(BoolResult((Holds("<=", lower, x) && Holds("<=", x, upper)) != negated))
  {
    CompareIs(x, lower);
    CompareIs(x, upper);
    if Comparable(x, lower) { OneOfThree(x, lower); }
    if Comparable(x, upper) { OneOfThree(x, upper); }
  }

  lemma {:induction false} TextsFollow(s: string, t: string, u: string)
    requires TextOrder(s, t) < 0 && TextOrder(t, u) < 0
    ensures TextOrder(s, u) < 0
  {
    if s != [] && t != [] && u != [] && s[0] == t[0] == u[0] { TextsFollow(s[1..], t[1..], u[1..]); }
  }

  lemma BelowFollows(v: EvalValue, w: EvalValue, x: EvalValue)
    requires Comparable(v, w) && Comparable(w, x) && Below(v, w) && Below(w, x)
    ensures Below(v, x)
  {
    if v.kind.StringKind? {
      TextOrderIs(v.text, w.text);
      TextOrderIs(w.text, x.text);
      TextOrderIs(v.text, x.text);
      TextsFollow(v.text, w.text, x.text);
    }
  }

  /** IN on values of one kind: true when one of them is the operand, unknown when none is but one is NULL, and
      otherwise false. */
  lemma InMeans(v: EvalValue, options: seq<Result<EvalValue>>, negated: bool)
    requires IsValue(v) && v != NULL && OfKind(options, v.kind)
    ensures EvalIn(Ok(v), options, negated)
         == Ok(if Ok(v) in options then BoolResult(!negated)
               else if Ok(NULL) in options then NULL
               else BoolResult(negated))
  {
    forall i | 0 <= i < |options| && options[i].value != NULL
      ensures CompareEval(v, options[i].value).Ok?
              && (CompareEval(v, options[i].value) == Ok(0) <==> options[i] == Ok(v))
    {
      CompareIs(v, options[i].value);
    }
    ChooseMeans(v, options, negated, false);
  }

  /** What a subquery gives as a value: EXISTS whether there are rows, a scalar one the only value or NULL. */
  lemma SubqueryMeans(columns: nat, rows: seq<Row>, operand: Result<EvalValue>, negated: bool)
    requires forall i :: 0 <= i < |rows| ==> |rows[i]| == columns
    ensures EvalSubquery(Exists, Ok(QueryResult(columns, rows)), operand, negated)
         == Ok(BoolResult(negated <==> |rows| == 0))
    ensures var r := EvalSubquery(Scalar, Ok(QueryResult(columns, rows)), operand, negated);
            match r
            case Ok(v) => columns == 1 && (if |rows| == 0 then v == NULL else |rows| == 1 && v == FromValue(rows[0][0]))
            case Err(error) => error == SubqueryError && (columns != 1 || |rows| > 1)
    ensures columns == 1 ==>
              EvalSubquery(InSubquery, Ok(QueryResult(columns, rows)), operand, negated)
              == EvalIn(operand, seq(|rows|, i requires 0 <= i < |rows| => Ok(FromValue(rows[i][0]))), negated)
  {
    if columns == 1 {
      assert FirstColumn(rows) == seq(|rows|, i requires 0 <= i < |rows| => Ok(FromValue(rows[i][0])));
    }
  }

  // ----- arithmetic -----

  /** `q` is `a` divided by `b`, rounded towards zero. */
  predicate IsQuotient(a: int, b: int, q: int) {
    var r := a - b * q;
    (a >= 0 ==> 0 <= r) && (a <= 0 ==> r <= 0) && (b > 0 ==> -b < r < b) && (b < 0 ==> b < r < -b)
  }

  /** Sums, differences and products are exact or an overflow, which they are exactly when they do not fit. */
  lemma ArithmeticMeans(a: int, b: int)
    requires InInt64(a) && InInt64(b)
    ensures var left, right := Ok(IntResult(a)), Ok(IntResult(b));
            && EvalBinary("+", left, right) == (if InInt64(a + b) then Ok(IntResult(a + b)) else Err(Overflow))
            && EvalBinary("-", left, right) == (if InInt64(a - b) then Ok(IntResult(a - b)) else Err(Overflow))
            && EvalBinary("*", left, right) == (if InInt64(a * b) then Ok(IntResult(a * b)) else Err(Overflow))
    ensures EvalUnary("-", Ok(IntResult(a))) == if InInt64(-a) then Ok(IntResult(-a)) else Err(Overflow)
  {
    SafeAddIsExact(a, b);
    SafeMulIsExact(a, b);
    CheckedMulIsSafeMul(a, b);
  }

  lemma DivisionMeans(a: int, b: int)
    requires InInt64(a) && InInt64(b)
    ensures match EvalBinary("/", Ok(IntResult(a)), Ok(IntResult(b)))
            case Ok(v) => b != 0 && v == IntResult(v.integer) && InInt64(v.integer) && IsQuotient(a, b, v.integer)
            case Err(error) =>
              (b == 0 && error == DivisionByZero) || (a == INT64_MIN && b == -1 && error == Overflow)
  {
    if b != 0 {
      TruncDivIs(a, b);
      QuotientFits(a, b);
    }
  }

  // ----- aggregates -----

  /** AVG is the total divided by the number of values that are not NULL, rounded towards zero. */
  lemma AverageMeans(values: seq<Result<EvalValue>>)
    requires AllIntegers(values)
    ensures var numbers := Integers(values);
            match EvalAggregate(Avg, values)
            case Ok(v) =>
              if numbers == [] then v == NULL
              else v == IntResult(v.integer) && IsQuotient(Total(numbers), |numbers|, v.integer)
            case Err(error) => error == AggregateOverflow && exists k: nat :: OverflowsAt(numbers, k)
  {
    SumMeans(Avg, values);
    var numbers := Integers(values);
    if numbers != [] { TruncDivIs(Total(numbers), |numbers|); }
  }

  /** SUM is NULL on no values, and otherwise the total. */
  lemma SumIsTotal(values: seq<Result<EvalValue>>)
    requires AllIntegers(values)
    ensures var numbers := Integers(values);
            match EvalAggregate(Sum, values)
            case Ok(v) => v == if numbers == [] then NULL else IntResult(Total(numbers))
            case Err(error) => error == AggregateOverflow && exists k: nat :: OverflowsAt(numbers, k)
  {
    SumMeans(Sum, values);
  }

  /** Values of one kind, or NULL. */
  predicate OfKind(values: seq<Result<EvalValue>>, kind: ValueKind) {
    !kind.NullKind?
    && forall i :: 0 <= i < |values| ==>
        values[i].Ok? && IsValue(values[i].value) && (values[i].value == NULL || values[i].value.kind == kind)
  }

  /** One of the values, with none beyond it. */
  ghost predicate IsExtreme(kind: AggregateKind, values: seq<Result<EvalValue>>, v: EvalValue) {
    v != NULL && Ok(v) in values
    && forall i :: 0 <= i < |values| && values[i].Ok? && values[i].value != NULL ==>
        if kind.Min? then !Below(values[i].value, v) else !Below(v, values[i].value)
  }

  lemma {:induction false} ExtremeOfAnyKind(kind: AggregateKind, values: seq<Result<EvalValue>>, k: ValueKind)
    requires (kind.Min? || kind.Max?) && OfKind(values, k)
    ensures match GatherAll(kind, values)
            case Ok(Empty) => forall i :: 0 <= i < |values| ==> values[i] == Ok(NULL)
            case Ok(Tally(v, n)) => IsValue(v) && v.kind == k && n > 0 && IsExtreme(kind, values, v)
            case Err(_) => false
  {
    if values != [] {
      var n := |values| - 1;
      var front, last := values[..n], values[n];
      ExtremeOfAnyKind(kind, front, k);
      assert forall i :: 0 <= i < n ==> front[i] == values[i];
      assert last in values;
      if last.value != NULL && GatherAll(kind, front).value.Tally? {
        KeepsExtreme(kind, values, GatherAll(kind, front).value.gathered, last.value);
      }
    }
  }

  lemma KeepsExtreme(kind: AggregateKind, values: seq<Result<EvalValue>>, v: EvalValue, w: EvalValue)
    requires (kind.Min? || kind.Max?) && values != [] && values[|values| - 1] == Ok(w) && Comparable(v, w)
    requires OfKind(values, v.kind) && IsExtreme(kind, values[..|values| - 1], v)
    ensures CompareEval(w, v).Ok?
    ensures var order := CompareEval(w, v).value;
            var better := (kind.Min? && order < 0) || (kind.Max? && order > 0);
            IsExtreme(kind, values, if better then w else v)
  {
    var n := |values| - 1;
    CompareIs(w, v);
    OneOfThree(w, v);
    assert values[n] in values;
    forall i | 0 <= i < n && values[i].value != NULL
      ensures kind.Min? && Below(w, v) ==> !Below(values[i].value, w)
      ensures kind.Max? && Below(v, w) ==> !Below(w, values[i].value)
    {
      var x := values[i].value;
      assert values[..n][i] == values[i];
      if kind.Min? && Below(w, v) && Below(x, w) { BelowFollows(x, w, v); }
      if kind.Max? && Below(v, w) && Below(w, x) { BelowFollows(v, w, x); }
    }
    assert Ok(v) in values[..n];
    assert forall i :: 0 <= i < n ==> values[..n][i] == values[i];
  }

  /** MIN and MAX over values of any one kind: NULL when there are none, and otherwise the least or the greatest. */
  lemma ExtremeIs(kind: AggregateKind, values: seq<Result<EvalValue>>, k: ValueKind)
    requires (kind.Min? || kind.Max?) && OfKind(values, k)
    ensures EvalAggregate(kind, values).Ok?
    ensures var v := EvalAggregate(kind, values).value;
            if v == NULL then forall i :: 0 <= i < |values| ==> values[i] == Ok(NULL) else IsExtreme(kind, values, v)
  {
    ExtremeOfAnyKind(kind, values, k);
  }
}
