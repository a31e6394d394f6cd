/** The grammar of expressions: what each level of the recursive descent gives on a list of tokens. */
module Grammar {
  import opened Wrappers
  import opened Expressions
  import opened Lexing

  datatype ParseError = Syntax | IntegerTooLarge | NestedSelect

  /** An expression and the tokens after it. */
  datatype Parse = Parsed(e: Expr, rest: seq<Token>) | Failed(error: ParseError)

  datatype ParseList = ParsedList(options: seq<Expr>, after: seq<Token>) | FailedList(problem: ParseError)

  /** The type of the k-th token; the end marker stands for everything after the last one. */
  function Type(ts: seq<Token>, k: nat): (t: TokenType) { if k < |ts| then ts[k].t else EndOfFile }

  predicate IsComparisonType(t: TokenType) {
    t == Equal || t == NotEqual || t == Greater || t == GreaterEqual || t == Less || t == LessEqual
  }

  predicate IsAdditiveType(t: TokenType) { t == Plus || t == Minus }

  predicate IsMultiplicativeType(t: TokenType) { t == Star || t == Slash }

  // ----- numerals -----

  function DigitValue(c: char): nat
    requires IsDigit(c)
  {
    c as int - '0' as int
  }

  function DigitsValue(s: string): nat
    requires forall i :: 0 <= i < |s| ==> IsDigit(s[i])
  {
    if s == "" then 0 else 10 * DigitsValue(s[..|s| - 1]) + DigitValue(s[|s| - 1])
  }

  predicate AllDigits(s: string) { s != "" && forall i :: 0 <= i < |s| ==> IsDigit(s[i]) }

  /** The 64-bit number a numeral stands for. */
  function FromChars(s: string): Option<int> {
    var negative := s != "" && s[0] == '-';
    var digits := if negative then s[1..] else s;
    if !AllDigits(digits) then None
    else
      var value: int := DigitsValue(digits);
      var n := if negative then -value else value;
      if InInt64(n) then Some(n) else None
  }

  // ----- aggregates and columns -----

  function AggregateName(kind: AggregateKind): string {
    match kind
    case Count => "count"
    case Sum => "sum"
    case Avg => "avg"
    case Max => "max"
    case Min => "min"
  }

  function AggregateFromName(name: string): Option<AggregateKind> {
    if name == "count" then Some(Count)
    else if name == "sum" then Some(Sum)
    else if name == "avg" then Some(Avg)
    else if name == "max" then Some(Max)
    else if name == "min" then Some(Min)
    else None
  }

  predicate IsAggregateCall(ts: seq<Token>) {
    Type(ts, 0) == Identifier && Type(ts, 1) == LeftParen && AggregateFromName(ts[0].lexeme).Some?
  }

  function ParseColumn(ts: seq<Token>): (p: Parse)
    ensures p.Parsed? ==> |p.rest| < |ts|
  {
    if Type(ts, 0) != Identifier then Failed(Syntax)
    else if Type(ts, 1) != Dot then Parsed(Column("", ts[0].lexeme), ts[1..])
    else if Type(ts, 2) != Identifier then Failed(Syntax)
    else Parsed(Column(ts[0].lexeme, ts[2].lexeme), ts[3..])
  }

  // ----- the levels -----

  /** The closing parenthesis after an expression. */
  function Close(p: Parse): (q: Parse)
    ensures q.Parsed? ==> p.Parsed? && |q.rest| < |p.rest|
  {
    if p.Failed? then p
    else if Type(p.rest, 0) != RightParen then Failed(Syntax)
    else Parsed(p.e, p.rest[1..])
  }

  function ParseOr(ts: seq<Token>): (p: Parse)
    ensures p.Parsed? ==> |p.rest| < |ts|
    decreases |ts|, 9
  {
    var left := ParseAnd(ts);
    if left.Failed? then left else OrTail(left.e, left.rest)
  }

  function OrTail(left: Expr, ts: seq<Token>): (p: Parse)
    ensures p.Parsed? ==> |p.rest| <= |ts|
    decreases |ts|, 0
  {
    if Type(ts, 0) != KwOr then Parsed(left, ts)
    else
      var right := ParseAnd(ts[1..]);
      if right.Failed? then right else OrTail(Binary("or", left, right.e), right.rest)
  }

  function ParseAnd(ts: seq<Token>): (p: Parse)
    ensures p.Parsed? ==> |p.rest| < |ts|
    decreases |ts|, 8
  {
    var left := ParseNot(ts);
    if left.Failed? then left else AndTail(left.e, left.rest)
  }

  function AndTail(left: Expr, ts: seq<Token>): (p: Parse)
    ensures p.Parsed? ==> |p.rest| <= |ts|
    decreases |ts|, 0
  {
    if Type(ts, 0) != KwAnd then Parsed(left, ts)
    else
      var right := ParseNot(ts[1..]);
      if right.Failed? then right else AndTail(Binary("and", left, right.e), right.rest)
  }

  function ParseNot(ts: seq<Token>): (p: Parse)
    ensures p.Parsed? ==> |p.rest| < |ts|
    decreases |ts|, 7
  {
    if Type(ts, 0) == KwNot then
      var operand := ParseNot(ts[1..]);
      if operand.Failed? then operand else Parsed(Unary("not", operand.e), operand.rest)
    else ParseComparison(ts)
  }

  /** One comparison at most, then one of IS NULL, BETWEEN, IN and LIKE. */
  function ParseComparison(ts: seq<Token>): (p: Parse)
    ensures p.Parsed? ==> |p.rest| < |ts|
    decreases |ts|, 6
  {
    var left := ParseAdditive(ts);
    if left.Failed? then left
    else if IsComparisonType(Type(left.rest, 0)) then
      var right := ParseAdditive(left.rest[1..]);
      if right.Failed? then right else ParseSuffix(Binary(left.rest[0].lexeme, left.e, right.e), right.rest)
    else ParseSuffix(left.e, left.rest)
  }

  function ParseSuffix(left: Expr, ts: seq<Token>): (p: Parse)
    ensures p.Parsed? ==> |p.rest| <= |ts|
    decreases |ts|, 5
  {
    if Type(ts, 0) == KwIs then
      var negated := Type(ts, 1) == KwNot;
      var k := if negated then 2 else 1;
      if Type(ts, k) == KwNull then Parsed(IsNull(left, negated), ts[k + 1..]) else Failed(Syntax)
    else
      var next := Type(ts, 1);
      if Type(ts, 0) == KwNot && (next == KwBetween || next == KwIn || next == KwLike) then
        ParseMembership(left, true, ts[1..])
      else ParseMembership(left, false, ts)
  }

  function ParseMembership(left: Expr, negated: bool, ts: seq<Token>): (p: Parse)
    ensures p.Parsed? ==> |p.rest| <= |ts|
    decreases |ts|, 4
  {
    if Type(ts, 0) == KwBetween then ParseRange(left, negated, ts[1..])
    else if Type(ts, 0) == KwIn then ParseInParens(left, negated, ts[1..])
    else if Type(ts, 0) == KwLike then
      var right := ParseAdditive(ts[1..]);
      if right.Failed? then right
      else Parsed(Binary(if negated then "not like" else "like", left, right.e), right.rest)
    else Parsed(left, ts)
  }

  /** Two bounds joined by AND. */
  function ParseRange(operand: Expr, negated: bool, ts: seq<Token>): (p: Parse)
    ensures p.Parsed? ==> |p.rest| <= |ts|
    decreases |ts|, 11
  {
    var lower := ParseAdditive(ts);
    if lower.Failed? then lower
    else if Type(lower.rest, 0) != KwAnd then Failed(Syntax)
    else
      var upper := ParseAdditive(lower.rest[1..]);
      if upper.Failed? then upper else Parsed(Between(operand, lower.e, upper.e, negated), upper.rest)
  }

  /** The options of IN, in parentheses. */
  function ParseInParens(operand: Expr, negated: bool, ts: seq<Token>): (p: Parse)
    ensures p.Parsed? ==> |p.rest| <= |ts|
    decreases |ts|, 11
  {
    if Type(ts, 0) != LeftParen then Failed(Syntax)
    else if Type(ts, 1) == KwSelect then Failed(NestedSelect)
    else
      match ParseOptions(ts[1..])
      case FailedList(error) => Failed(error)
      case ParsedList(options, after) => Close(Parsed(In(operand, options, negated), after))
  }

  function ParseOptions(ts: seq<Token>): (p: ParseList)
    ensures p.ParsedList? ==> |p.after| < |ts|
    decreases |ts|, 10
  {
    var first := ParseOr(ts);
    if first.Failed? then FailedList(first.error)
    else if Type(first.rest, 0) != Comma then ParsedList([first.e], first.rest)
    else
      match ParseOptions(first.rest[1..])
      case FailedList(error) => FailedList(error)
      case ParsedList(options, after) => ParsedList([first.e] + options, after)
  }

  function ParseAdditive(ts: seq<Token>): (p: Parse)
    ensures p.Parsed? ==> |p.rest| < |ts|
    decreases |ts|, 4
  {
    var left := ParseMultiplicative(ts);
    if left.Failed? then left else AdditiveTail(left.e, left.rest)
  }

  function AdditiveTail(left: Expr, ts: seq<Token>): (p: Parse)
    ensures p.Parsed? ==> |p.rest| <= |ts|
    decreases |ts|, 0
  {
    if !IsAdditiveType(Type(ts, 0)) then Parsed(left, ts)
    else
      var right := ParseMultiplicative(ts[1..]);
      if right.Failed? then right else AdditiveTail(Binary(ts[0].lexeme, left, right.e), right.rest)
  }

  function ParseMultiplicative(ts: seq<Token>): (p: Parse)
    ensures p.Parsed? ==> |p.rest| < |ts|
    decreases |ts|, 3
  {
    var left := ParseUnary(ts);
    if left.Failed? then left else MultiplicativeTail(left.e, left.rest)
  }

  function MultiplicativeTail(left: Expr, ts: seq<Token>): (p: Parse)
    ensures p.Parsed? ==> |p.rest| <= |ts|
    decreases |ts|, 0
  {
    if !IsMultiplicativeType(Type(ts, 0)) then Parsed(left, ts)
    else
      var right := ParseUnary(ts[1..]);
      if right.Failed? then right else MultiplicativeTail(Binary(ts[0].lexeme, left, right.e), right.rest)
  }

  function ParseUnary(ts: seq<Token>): (p: Parse)
    ensures p.Parsed? ==> |p.rest| < |ts|
    decreases |ts|, 2
  {
    if Type(ts, 0) == Minus then
      var operand := ParseUnary(ts[1..]);
      if operand.Failed? then operand else Parsed(Unary("-", operand.e), operand.rest)
    else ParsePrimary(ts)
  }

  function ParseAggregate(ts: seq<Token>): (p: Parse)
    requires IsAggregateCall(ts)
    ensures p.Parsed? ==> |p.rest| < |ts|
    decreases |ts|, 0
  {
    var kind := AggregateFromName(ts[0].lexeme).value;
    if Type(ts, 2) == Star then Close(Parsed(Aggregate(kind, true, Missing), ts[3..]))
    else
      var argument := ParseOr(ts[2..]);
      if argument.Failed? then argument else Close(Parsed(Aggregate(kind, false, argument.e), argument.rest))
  }

  function ParsePrimary(ts: seq<Token>): (p: Parse)
    ensures p.Parsed? ==> |p.rest| < |ts|
    decreases |ts|, 1
  {
    match Type(ts, 0)
    case KwNull => Parsed(Literal(NullLiteral, 0, ""), ts[1..])
    case KwExists => Failed(if Type(ts, 1) == LeftParen && Type(ts, 2) == KwSelect then NestedSelect else Syntax)
    case KwTrue => Parsed(Literal(BoolLiteral, 0, "true"), ts[1..])
    case KwFalse => Parsed(Literal(BoolLiteral, 0, "false"), ts[1..])
    case Str => Parsed(Literal(StringLiteral, 0, ts[0].lexeme), ts[1..])
    case Integer =>
      (match FromChars(ts[0].lexeme)
       case Some(n) => Parsed(Literal(IntLiteral, n, ""), ts[1..])
       case None => Failed(IntegerTooLarge))
    case Identifier => if IsAggregateCall(ts) then ParseAggregate(ts) else ParseColumn(ts)
    case LeftParen => if Type(ts, 1) == KwSelect then Failed(NestedSelect) else Close(ParseOr(ts[1..]))
    case _ => Failed(Syntax)
  }
}
