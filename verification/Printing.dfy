/** The printer, and the proof that lexing and parsing what it prints gives the expression back. */
module Printing {
  import opened Wrappers
  import opened Expressions
  import opened Lexing
  import opened Grammar

  // ----- the printer -----

  function Digit(n: nat): char
    requires n < 10
  { '0' + n as char }

  function Numeral(n: nat): string { if n < 10 then [Digit(n)] else Numeral(n / 10) + [Digit(n % 10)] }

  function ToString(n: int): string { if n < 0 then "-" + Numeral(-n) else Numeral(n) }

  function OptionsText(options: seq<Expr>): string {
    if options == [] then ""
    else Text(options[0]) + (if |options| == 1 then "" else ", " + OptionsText(options[1..]))
  }

  function LiteralText(kind: LiteralKind, integer: int, text: string): string {
    match kind
    case IntLiteral => ToString(integer)
    case StringLiteral => "'" + text + "'"
    case NullLiteral => "NULL"
    case BoolLiteral => text
  }

  function Text(e: Expr): string {
    match e
    case Missing => "<null>"
    case Column(tableName, name) => if tableName == "" then name else tableName + "." + name
    case Literal(kind, integer, text) => LiteralText(kind, integer, text)
    case Binary(op, left, right) => "(" + Text(left) + " " + op + " " + Text(right) + ")"
    case Unary(op, operand) => "(" + op + " " + Text(operand) + ")"
    case IsNull(operand, negated) => "(" + Text(operand) + (if negated then " is not null)" else " is null)")
    case Between(operand, lower, upper, negated) =>
      "(" + Text(operand) + " " + (if negated then "not between " else "between ") + Text(lower) + " and "
      + Text(upper) + ")"
    case In(operand, options, negated) =>
      "(" + Text(operand) + " " + (if negated then "not in (" else "in (") + OptionsText(options) + "))"
    case Subquery(kind, _, operand, negated) =>
      (match kind
       case Exists => "(exists (select ...))"
       case InSubquery => "(" + Text(operand) + (if negated then " not in (select ...))" else " in (select ...))")
       case Scalar => "(select ...)")
    case Aggregate(kind, star, argument) => AggregateName(kind) + "(" + (if star then "*" else Text(argument)) + ")"
  }

  // ----- what can be printed and read back -----

  predicate IsName(s: string) {
    s != "" && IsWordStart(s[0]) && (forall i :: 0 <= i < |s| ==> IsWordChar(s[i])) && Lower(s) == s
    && KeywordType(s) == Identifier
  }

  predicate IsWordOperator(op: string) { op == "and" || op == "or" || op == "like" || op == "not like" }

  predicate IsPair(op: string) { op == "==" || op == "!=" || op == "<>" || op == ">=" || op == "<=" }

  predicate IsSymbol(op: string) {
    op == "=" || op == "!" || op == ">" || op == "<" || op == "+" || op == "-" || op == "*" || op == "/"
  }

  predicate IsOperator(op: string) { IsWordOperator(op) || IsPair(op) || IsSymbol(op) }

  predicate IsCanonical(kind: LiteralKind, integer: int, text: string) {
    match kind
    case IntLiteral => InInt64(integer) && text == ""
    case StringLiteral => integer == 0 && '\'' !in text
    case BoolLiteral => integer == 0 && (text == "true" || text == "false")
    case NullLiteral => integer == 0 && text == ""
  }

  /** No subquery, lower-case names that are no keywords, strings without quotes, IN lists that are not empty. */
  predicate Printable(e: Expr) {
    match e
    case Missing => false
    case Column(tableName, name) => (tableName == "" || IsName(tableName)) && IsName(name)
    case Literal(kind, integer, text) => IsCanonical(kind, integer, text)
    case Binary(op, left, right) => IsOperator(op) && Printable(left) && Printable(right)
    case Unary(op, operand) => (op == "not" || op == "-") && Printable(operand)
    case IsNull(operand, _) => Printable(operand)
    case Between(operand, lower, upper, _) => Printable(operand) && Printable(lower) && Printable(upper)
    case In(operand, options, _) =>
      Printable(operand) && options != [] && forall i :: 0 <= i < |options| ==> Printable(options[i])
    case Subquery(_, _, _, _) => false
    case Aggregate(_, star, argument) => if star then argument.Missing? else Printable(argument)
  }

  // ----- the tokens of a printed expression -----

  const LP := Token(LeftParen, "(")
  const RP := Token(RightParen, ")")
  const COMMA := Token(Comma, ",")

  function Word(w: string): Token { Token(KeywordType(w), w) }

  function NotTokens(negated: bool): seq<Token> { if negated then [Token(KwNot, "not")] else [] }

  function SymbolToken(op: string): Token
    requires op != ""
  { Token(if |op| == 2 then Pair(op) else Punctuation(op[0]), op) }

  function OperatorTokens(op: string): seq<Token> {
    if op == "not like" then [Token(KwNot, "not"), Token(KwLike, "like")]
    else if op == "and" then [Token(KwAnd, "and")]
    else if op == "or" then [Token(KwOr, "or")]
    else if op == "like" then [Token(KwLike, "like")]
    else if op == "" then []
    else [SymbolToken(op)]
  }

  function UnaryToken(op: string): Token { if op == "not" then Token(KwNot, "not") else Token(Minus, "-") }

  function LiteralToken(kind: LiteralKind, integer: int, text: string): Token {
    match kind
    case IntLiteral => Token(Integer, ToString(integer))
    case StringLiteral => Token(Str, text)
    case NullLiteral => Token(KwNull, "null")
    case BoolLiteral => Token(if text == "true" then KwTrue else KwFalse, text)
  }

  /** The tokens of an expression in front of the tokens that follow it. */
  function Write(e: Expr, rest: seq<Token>): seq<Token> {
    match e
    case Column(tableName, name) =>
      if tableName == "" then [Token(Identifier, name)] + rest
      else [Token(Identifier, tableName), Token(Dot, "."), Token(Identifier, name)] + rest
    case Literal(kind, integer, text) => [LiteralToken(kind, integer, text)] + rest
    case Binary(op, left, right) => [LP] + Write(left, OperatorTokens(op) + Write(right, [RP] + rest))
    case Unary(op, operand) => [LP, UnaryToken(op)] + Write(operand, [RP] + rest)
    case IsNull(operand, negated) =>
      [LP] + Write(operand, [Token(KwIs, "is")] + (NotTokens(negated) + ([Token(KwNull, "null"), RP] + rest)))
    case Between(operand, lower, upper, negated) =>
      [LP] + Write(operand, NotTokens(negated)
                            + ([Token(KwBetween, "between")]
                               + Write(lower, [Token(KwAnd, "and")] + Write(upper, [RP] + rest))))
    case In(operand, options, negated) =>
      [LP] + Write(operand, NotTokens(negated) + ([Token(KwIn, "in"), LP] + WriteOptions(options, [RP, RP] + rest)))
    case Aggregate(kind, star, argument) =>
      [Token(Identifier, AggregateName(kind)), LP]
      + (if star then [Token(Star, "*"), RP] + rest else Write(argument, [RP] + rest))
    case _ => rest
  }

  function WriteOptions(options: seq<Expr>, rest: seq<Token>): seq<Token> {
    if options == [] then rest
    else Write(options[0], if |options| == 1 then rest else [COMMA] + WriteOptions(options[1..], rest))
  }

  // ----- numerals -----

  lemma {:induction false} NumeralIsRead(n: nat)
    ensures AllDigits(Numeral(n)) && DigitsValue(Numeral(n)) == n
  {
    if n < 10 {
      assert Numeral(n)[..0] == "";
    } else {
      var m := n / 10;
      NumeralIsRead(m);
      assert Numeral(n)[..|Numeral(n)| - 1] == Numeral(m);
    }
  }

  lemma NumberIsRead(n: int)
    requires InInt64(n)
    ensures FromChars(ToString(n)) == Some(n)
  {
    if n < 0 {
      NumeralIsRead(-n);
      assert ToString(n)[1..] == Numeral(-n);
    } else {
      NumeralIsRead(n);
    }
  }

  // ----- parsing what was written -----

  /** Tokens that may follow an operand. */
  predicate Follows(rest: seq<Token>) { Type(rest, 0) != Dot && Type(rest, 0) != LeftParen }

  /** Tokens that end an expression. */
  predicate Ends(rest: seq<Token>) { Type(rest, 0) == RightParen || Type(rest, 0) == Comma || Type(rest,
                 0) == EndOfFile }

  predicate StartsOperand(ts: seq<Token>) {
    ts != [] && ts[0].t != Minus && ts[0].t != KwNot && ts[0].t != KwSelect && ts[0].t != Star
  }

  lemma OperandLifts(ts: seq<Token>, e: Expr, rest: seq<Token>)
    requires ParsePrimary(ts) == Parsed(e, rest) && StartsOperand(ts)
    ensures ParseUnary(ts) == Parsed(e, rest)
    ensures !IsMultiplicativeType(Type(rest, 0)) ==> ParseMultiplicative(ts) == Parsed(e, rest)
    ensures !IsMultiplicativeType(Type(rest, 0)) && !IsAdditiveType(Type(rest, 0)) ==>
              ParseAdditive(ts) == Parsed(e, rest)
  {
  }

  /** Nothing in `rest` continues a comparison. */
  predicate EndsComparison(rest: seq<Token>) { Ends(rest) || Type(rest, 0) == KwAnd || Type(rest, 0) == KwOr }

  lemma ComparisonLifts(ts: seq<Token>, e: Expr, rest: seq<Token>)
    requires ParseComparison(ts) == Parsed(e, rest) && Type(ts, 0) != KwNot
    ensures ParseNot(ts) == Parsed(e, rest)
    ensures Type(rest, 0) != KwAnd ==> ParseAnd(ts) == Parsed(e, rest)
    ensures Ends(rest) ==> ParseOr(ts) == Parsed(e, rest)
  {
  }

  lemma NoSuffix(e: Expr, rest: seq<Token>)
    requires EndsComparison(rest)
    ensures ParseSuffix(e, rest) == Parsed(e, rest) && !IsComparisonType(Type(rest, 0))
  {
  }

  lemma AdditiveLifts(ts: seq<Token>, e: Expr, rest: seq<Token>)
    requires ParseAdditive(ts) == Parsed(e, rest) && Type(ts, 0) != KwNot && EndsComparison(rest)
    ensures ParseNot(ts) == Parsed(e, rest)
    ensures Type(rest, 0) != KwAnd ==> ParseAnd(ts) == Parsed(e, rest)
    ensures Ends(rest) ==> ParseOr(ts) == Parsed(e, rest)
  {
    NoSuffix(e, rest);
    assert ParseComparison(ts) == Parsed(e, rest);
    ComparisonLifts(ts, e, rest);
  }

  /** An operand is parsed at every level. */
  lemma OperandIsWhole(ts: seq<Token>, e: Expr, rest: seq<Token>)
    requires ParsePrimary(ts) == Parsed(e, rest) && StartsOperand(ts) && Ends(rest)
    ensures ParseOr(ts) == Parsed(e, rest) && ParseNot(ts) == Parsed(e, rest) && ParseAnd(ts) == Parsed(e, rest)
  {
    OperandLifts(ts, e, rest);
    AdditiveLifts(ts, e, rest);
  }

  lemma InParentheses(ts: seq<Token>, e: Expr, rest: seq<Token>)
    requires ParseOr(ts) == Parsed(e, [RP] + rest) && Type(ts, 0) != KwSelect && ts != []
    ensures ParsePrimary([LP] + ts) == Parsed(e, rest)
  {
    var all := [LP] + ts;
    assert all[0] == LP && all[1..] == ts && Type(all, 1) == Type(ts, 0);
  }

  /** Both operands of a binary operator are read: `ts` holds the left one and then `after`, which holds the
      operator and then `more`, which holds the right one and then `rest`. */
  predicate OperandsRead(ts: seq<Token>, left: Expr, after: seq<Token>, more: seq<Token>, right: Expr,
                         rest: seq<Token>) {
    ParsePrimary(ts) == Parsed(left, after) && StartsOperand(ts)
    && ParsePrimary(more) == Parsed(right, rest) && StartsOperand(more) && Ends(rest)
  }

  lemma ProductIsParsed(ts: seq<Token>, left: Expr, op: Token, more: seq<Token>, right: Expr, rest: seq<Token>)
    requires OperandsRead(ts, left, [op] + more, more, right, rest) && IsMultiplicativeType(op.t)
    ensures ParseOr(ts) == Parsed(Binary(op.lexeme, left, right), rest)
  {
    var after := [op] + more;
    assert after[0] == op && after[1..] == more;
    OperandLifts(ts, left, after);
    OperandLifts(more, right, rest);
    var product := Binary(op.lexeme, left, right);
    assert MultiplicativeTail(product, rest) == Parsed(product, rest);
    assert ParseMultiplicative(ts) == Parsed(product, rest);
    AdditiveLifts(ts, product, rest);
  }

  lemma SumIsParsed(ts: seq<Token>, left: Expr, op: Token, more: seq<Token>, right: Expr, rest: seq<Token>)
    requires OperandsRead(ts, left, [op] + more, more, right, rest) && IsAdditiveType(op.t)
    ensures ParseOr(ts) == Parsed(Binary(op.lexeme, left, right), rest)
  {
    var after := [op] + more;
    assert after[0] == op && after[1..] == more;
    OperandLifts(ts, left, after);
    OperandLifts(more, right, rest);
    var sum := Binary(op.lexeme, left, right);
    assert AdditiveTail(sum, rest) == Parsed(sum, rest);
    assert ParseAdditive(ts) == Parsed(sum, rest);
    AdditiveLifts(ts, sum, rest);
  }

  lemma ComparisonIsParsed(ts: seq<Token>, left: Expr, op: Token, more: seq<Token>, right: Expr, rest: seq<Token>)
    requires OperandsRead(ts, left, [op] + more, more, right, rest) && IsComparisonType(op.t)
    ensures ParseOr(ts) == Parsed(Binary(op.lexeme, left, right), rest)
  {
    var after := [op] + more;
    assert after[0] == op && after[1..] == more;
    OperandLifts(ts, left, after);
    OperandLifts(more, right, rest);
    var comparison := Binary(op.lexeme, left, right);
    NoSuffix(comparison, rest);
    assert ParseComparison(ts) == Parsed(comparison, rest);
    ComparisonLifts(ts, comparison, rest);
  }

  lemma AndIsParsed(ts: seq<Token>, left: Expr, op: Token, more: seq<Token>, right: Expr, rest: seq<Token>)
    requires OperandsRead(ts, left, [op] + more, more, right, rest) && op.t == KwAnd
    ensures ParseOr(ts) == Parsed(Binary("and", left, right), rest)
  {
    var after := [op] + more;
    assert after[0] == op && after[1..] == more;
    OperandLifts(ts, left, after);
    AdditiveLifts(ts, left, after);
    OperandIsWhole(more, right, rest);
    var both := Binary("and", left, right);
    assert AndTail(both, rest) == Parsed(both, rest);
    assert ParseAnd(ts) == Parsed(both, rest);
  }

  lemma OrIsParsed(ts: seq<Token>, left: Expr, op: Token, more: seq<Token>, right: Expr, rest: seq<Token>)
    requires OperandsRead(ts, left, [op] + more, more, right, rest) && op.t == KwOr
    ensures ParseOr(ts) == Parsed(Binary("or", left, right), rest)
  {
    var after := [op] + more;
    assert after[0] == op && after[1..] == more;
    OperandLifts(ts, left, after);
    AdditiveLifts(ts, left, after);
    OperandIsWhole(more, right, rest);
    var either := Binary("or", left, right);
    assert OrTail(either, rest) == Parsed(either, rest);
  }

  /** An operand is followed by something that only the last part of a comparison reads. */
  lemma SuffixIsParsed(ts: seq<Token>, left: Expr, after: seq<Token>, e: Expr, rest: seq<Token>)
    requires ParsePrimary(ts) == Parsed(left, after) && StartsOperand(ts)
    requires ParseSuffix(left, after) == Parsed(e, rest) && Ends(rest)
    requires Type(after, 0) in {KwIs, KwNot, KwBetween, KwIn, KwLike}
    ensures ParseOr(ts) == Parsed(e, rest)
  {
    OperandLifts(ts, left, after);
    assert ParseComparison(ts) == Parsed(e, rest);
    ComparisonLifts(ts, e, rest);
  }

  /** `not` or nothing, then the rest of a membership test. */
  lemma NegationIsRead(left: Expr, negated: bool, ts: seq<Token>)
    requires Type(ts, 0) in {KwBetween, KwIn, KwLike} && ts != []
    ensures ParseSuffix(left, NotTokens(negated) + ts) == ParseMembership(left, negated, ts)
    ensures Type(NotTokens(negated) + ts, 0) in {KwNot, KwBetween, KwIn, KwLike}
  {
    var all := NotTokens(negated) + ts;
    if negated {
      assert all[0].t == KwNot && all[1..] == ts && Type(all, 1) == Type(ts, 0);
    } else {
      assert all == ts;
    }
  }

  lemma LikeIsParsed(ts: seq<Token>, left: Expr, negated: bool, more: seq<Token>, right: Expr, rest: seq<Token>)
    requires OperandsRead(ts, left, NotTokens(negated) + ([Token(KwLike, "like")] + more), more, right, rest)
    ensures ParseOr(ts) == Parsed(Binary(if negated then "not like" else "like", left, right), rest)
  {
    var test := [Token(KwLike, "like")] + more;
    assert test[0].t == KwLike && test[1..] == more;
    NegationIsRead(left, negated, test);
    OperandLifts(more, right, rest);
    SuffixIsParsed(ts, left, NotTokens(negated) + test, Binary(if negated then "not like" else "like", left, right),
                   rest);
  }

  lemma IsNullIsSuffix(operand: Expr, negated: bool, rest: seq<Token>)
    ensures var after := [Token(KwIs, "is")] + (NotTokens(negated) + ([Token(KwNull, "null")] + rest));
            ParseSuffix(operand, after) == Parsed(IsNull(operand, negated), rest) && Type(after, 0) == KwIs
  {
    var last := [Token(KwNull, "null")] + rest;
    var after := [Token(KwIs, "is")] + (NotTokens(negated) + last);
    assert last[1..] == rest;
    if negated {
      assert after[0].t == KwIs && after[1].t == KwNot && after[2].t == KwNull && after[3..] == rest;
    } else {
      assert NotTokens(negated) + last == last;
      assert after[0].t == KwIs && after[1].t == KwNull && after[2..] == rest;
    }
  }

  lemma IsNullIsParsed(ts: seq<Token>, operand: Expr, negated: bool, rest: seq<Token>)
    requires ParsePrimary(ts) == Parsed(operand,
                                        [Token(KwIs, "is")] + (NotTokens(negated) + ([Token(KwNull, "null")] + rest)))
    requires StartsOperand(ts) && Ends(rest)
    ensures ParseOr(ts) == Parsed(IsNull(operand, negated), rest)
  {
    var after := [Token(KwIs, "is")] + (NotTokens(negated) + ([Token(KwNull, "null")] + rest));
    IsNullIsSuffix(operand, negated, rest);
    SuffixIsParsed(ts, operand, after, IsNull(operand, negated), rest);
  }

  lemma BetweenIsParsed(ts: seq<Token>, operand: Expr, negated: bool, low: seq<Token>, lower: Expr, high: seq<Token>,
                        upper: Expr, rest: seq<Token>)
    requires ParsePrimary(ts) == Parsed(operand, NotTokens(negated) + ([Token(KwBetween, "between")] + low))
             && StartsOperand(ts)
    requires OperandsRead(low, lower, [Token(KwAnd, "and")] + high, high, upper, rest)
    ensures ParseOr(ts) == Parsed(Between(operand, lower, upper, negated), rest)
  {
    var test := [Token(KwBetween, "between")] + low;
    assert test[0].t == KwBetween && test[1..] == low;
    NegationIsRead(operand, negated, test);
    var after := [Token(KwAnd, "and")] + high;
    assert after[0].t == KwAnd && after[1..] == high;
    OperandLifts(low, lower, after);
    OperandLifts(high, upper, rest);
    SuffixIsParsed(ts, operand, NotTokens(negated) + test, Between(operand, lower, upper, negated), rest);
  }

  lemma InIsParsed(ts: seq<Token>, operand: Expr, negated: bool, list: seq<Token>, options: seq<Expr>, rest: seq<Token>)
    requires ParsePrimary(ts) == Parsed(operand, NotTokens(negated) + ([Token(KwIn, "in"), LP] + list))
             && StartsOperand(ts)
    requires ParseOptions(list) == ParsedList(options, [RP] + rest) && Type(list, 0) != KwSelect && Ends(rest)
    ensures ParseOr(ts) == Parsed(In(operand, options, negated), rest)
  {
    var test := [Token(KwIn, "in"), LP] + list;
    assert test[0].t == KwIn && test[1] == LP && test[2..] == list && Type(test, 2) == Type(list, 0);
    NegationIsRead(operand, negated, test);
    assert ([RP] + rest)[1..] == rest;
    SuffixIsParsed(ts, operand, NotTokens(negated) + test, In(operand, options, negated), rest);
  }

  lemma NegationLifts(ts: seq<Token>, e: Expr, rest: seq<Token>)
    requires ParseNot(ts) == Parsed(e, rest) && Ends(rest)
    ensures ParseOr(ts) == Parsed(e, rest)
  {
    assert ParseAnd(ts) == Parsed(e, rest);
  }

  lemma UnaryLifts(ts: seq<Token>, e: Expr, rest: seq<Token>)
    requires ParseUnary(ts) == Parsed(e, rest) && Ends(rest)
    ensures ParseAdditive(ts) == Parsed(e, rest)
  {
    assert ParseMultiplicative(ts) == Parsed(e, rest);
  }

  lemma NotIsParsed(ts: seq<Token>, operand: Expr, rest: seq<Token>)
    requires ParsePrimary(ts) == Parsed(operand, rest) && StartsOperand(ts) && Ends(rest)
    ensures ParseOr([UnaryToken("not")] + ts) == Parsed(Unary("not", operand), rest)
  {
    var all := [UnaryToken("not")] + ts;
    assert all[0].t == KwNot && all[1..] == ts;
    OperandIsWhole(ts, operand, rest);
    NegationLifts(all, Unary("not", operand), rest);
  }

  lemma NegativeIsParsed(ts: seq<Token>, operand: Expr, rest: seq<Token>)
    requires ParsePrimary(ts) == Parsed(operand, rest) && StartsOperand(ts) && Ends(rest)
    ensures ParseOr([UnaryToken("-")] + ts) == Parsed(Unary("-", operand), rest)
  {
    var all := [UnaryToken("-")] + ts;
    assert all[0].t == Minus && all[1..] == ts;
    OperandLifts(ts, operand, rest);
    var e := Unary("-", operand);
    UnaryLifts(all, e, rest);
    AdditiveLifts(all, e, rest);
  }

  predicate IsSymbolType(t: TokenType) { IsComparisonType(t) || IsAdditiveType(t) || IsMultiplicativeType(t) }

  lemma SymbolClass(op: string)
    requires IsPair(op) || IsSymbol(op)
    ensures OperatorTokens(op) == [SymbolToken(op)] && IsSymbolType(SymbolToken(op).t)
  {
    if IsPair(op) {
      assert |op| == 2;
    } else {
      assert |op| == 1;
    }
  }

  lemma OperatorFollows(op: string, more: seq<Token>)
    requires IsOperator(op)
    ensures Follows(OperatorTokens(op) + more)
  {
    if !IsWordOperator(op) { SymbolClass(op); }
  }

  lemma SymbolIsParsed(op: Token, ts: seq<Token>, left: Expr, more: seq<Token>, right: Expr, rest: seq<Token>)
    requires IsSymbolType(op.t) && OperandsRead(ts, left, [op] + more, more, right, rest)
    ensures ParseOr(ts) == Parsed(Binary(op.lexeme, left, right), rest)
  {
    if IsComparisonType(op.t) {
      ComparisonIsParsed(ts, left, op, more, right, rest);
    } else if IsAdditiveType(op.t) {
      SumIsParsed(ts, left, op, more, right, rest);
    } else {
      ProductIsParsed(ts, left, op, more, right, rest);
    }
  }

  lemma LikeTokens(negated: bool, more: seq<Token>)
    ensures NotTokens(negated) + ([Token(KwLike, "like")] + more)
         == OperatorTokens(if negated then "not like" else "like") + more
  {
  }

  lemma LikeWordIsParsed(negated: bool, ts: seq<Token>, left: Expr, more: seq<Token>, right: Expr, rest: seq<Token>)
    requires var op := if negated then "not like" else "like";
             OperandsRead(ts, left, OperatorTokens(op) + more, more, right, rest)
    ensures ParseOr(ts) == Parsed(Binary(if negated then "not like" else "like", left, right), rest)
  {
    LikeTokens(negated, more);
    LikeIsParsed(ts, left, negated, more, right, rest);
  }

  lemma WordIsParsed(op: string, ts: seq<Token>, left: Expr, more: seq<Token>, right: Expr, rest: seq<Token>)
    requires IsWordOperator(op) && OperandsRead(ts, left, OperatorTokens(op) + more, more, right, rest)
    ensures ParseOr(ts) == Parsed(Binary(op, left, right), rest)
  {
    if op == "and" {
      AndIsParsed(ts, left, Token(KwAnd, "and"), more, right, rest);
    } else if op == "or" {
      OrIsParsed(ts, left, Token(KwOr, "or"), more, right, rest);
    } else {
      LikeWordIsParsed(op == "not like", ts, left, more, right, rest);
    }
  }

  lemma BinaryIsParsed(op: string, ts: seq<Token>, left: Expr, more: seq<Token>, right: Expr, rest: seq<Token>)
    requires IsOperator(op) && OperandsRead(ts, left, OperatorTokens(op) + more, more, right, rest)
    ensures ParseOr(ts) == Parsed(Binary(op, left, right), rest)
  {
    if IsWordOperator(op) {
      WordIsParsed(op, ts, left, more, right, rest);
    } else {
      SymbolClass(op);
      SymbolIsParsed(SymbolToken(op), ts, left, more, right, rest);
    }
  }

  lemma UnaryIsParsed(op: string, operand: Expr, ts: seq<Token>, rest: seq<Token>)
    requires ParsePrimary(ts) == Parsed(operand, rest) && StartsOperand(ts) && Ends(rest) && (op == "not" || op == "-")
    ensures ParseOr([UnaryToken(op)] + ts) == Parsed(Unary(op, operand), rest)
  {
    if op == "not" { NotIsParsed(ts, operand, rest); } else { NegativeIsParsed(ts, operand, rest); }
  }

  lemma AggregateIsParsed(kind: AggregateKind, argument: Expr, ts: seq<Token>, rest: seq<Token>)
    requires ParseOr(ts) == Parsed(argument, [RP] + rest) && Type(ts, 0) != Star && ts != []
    ensures ParsePrimary([Token(Identifier, AggregateName(kind)), LP] + ts)
            == Parsed(Aggregate(kind, false, argument), rest)
  {
    var all := [Token(Identifier, AggregateName(kind)), LP] + ts;
    assert all[0].lexeme == AggregateName(kind) && all[1] == LP && all[2..] == ts && Type(all, 2) == Type(ts, 0);
    assert ([RP] + rest)[1..] == rest;
    assert IsAggregateCall(all);
  }

  lemma StarIsParsed(kind: AggregateKind, rest: seq<Token>)
    ensures ParsePrimary([Token(Identifier, AggregateName(kind)), LP] + ([Token(Star, "*"), RP] + rest))
            == Parsed(Aggregate(kind, true, Missing), rest)
  {
    var after := [Token(Star, "*"), RP] + rest;
    var all := [Token(Identifier, AggregateName(kind)), LP] + after;
    assert all[0].lexeme == AggregateName(kind) && all[1] == LP && all[2].t == Star && all[3..] == [RP] + rest;
    assert ([RP] + rest)[1..] == rest;
    assert IsAggregateCall(all);
  }

  lemma ColumnIsParsed(tableName: string, name: string, rest: seq<Token>)
    requires Follows(rest)
    ensures ParsePrimary(Write(Column(tableName, name), rest)) == Parsed(Column(tableName, name), rest)
    ensures StartsOperand(Write(Column(tableName, name), rest))
  {
    var all := Write(Column(tableName, name), rest);
    if tableName == "" {
      assert all[0].t == Identifier && all[1..] == rest && Type(all, 1) == Type(rest, 0);
    } else {
      assert all[0].t == Identifier && all[1].t == Dot && all[2].t == Identifier && all[3..] == rest;
    }
  }

  lemma LiteralIsParsed(kind: LiteralKind, integer: int, text: string, rest: seq<Token>)
    requires IsCanonical(kind, integer, text)
    ensures ParsePrimary([LiteralToken(kind, integer, text)] + rest) == Parsed(Literal(kind, integer, text), rest)
    ensures StartsOperand([LiteralToken(kind, integer, text)] + rest)
  {
    var all := [LiteralToken(kind, integer, text)] + rest;
    assert all[0] == LiteralToken(kind, integer, text) && all[1..] == rest;
    if kind.IntLiteral? { NumberIsRead(integer); }
  }

  lemma WrittenInParentheses(e: Expr, ts: seq<Token>, rest: seq<Token>)
    requires Write(e, rest) == [LP] + ts && ParseOr(ts) == Parsed(e, [RP] + rest) && Type(ts, 0) != KwSelect && ts != []
    ensures ParsePrimary(Write(e, rest)) == Parsed(e, rest) && StartsOperand(Write(e, rest))
  {
    InParentheses(ts, e, rest);
  }

  /** What was written for an expression is read back as that expression, whatever follows. */
  lemma {:induction false} WrittenIsParsed(e: Expr, rest: seq<Token>)
    requires Printable(e) && Follows(rest)
    ensures ParsePrimary(Write(e, rest)) == Parsed(e, rest) && StartsOperand(Write(e, rest))
    decreases e, 2
  {
    match e
    case Column(tableName, name) =>
      ColumnIsParsed(tableName, name, rest);
    case Literal(kind, integer, text) =>
      LiteralIsParsed(kind, integer, text, rest);
    case Binary(_, _, _) =>
      WrittenBinaryIsParsed(e, rest);
    case Unary(_, _) =>
      WrittenUnaryIsParsed(e, rest);
    case IsNull(_, _) =>
      WrittenIsNullIsParsed(e, rest);
    case Between(_, _, _, _) =>
      WrittenBetweenIsParsed(e, rest);
    case In(_, _, _) =>
      WrittenInIsParsed(e, rest);
    case Aggregate(_, _, _) =>
      WrittenAggregateIsParsed(e, rest);
    case _ =>
  }

  lemma UnaryInParentheses(op: string, operand: Expr, ts: seq<Token>, rest: seq<Token>)
    requires ParsePrimary(ts) == Parsed(operand, [RP] + rest) && StartsOperand(ts) && (op == "not" || op == "-")
    ensures ParsePrimary([LP, UnaryToken(op)] + ts) == Parsed(Unary(op, operand), rest)
    ensures StartsOperand([LP, UnaryToken(op)] + ts)
  {
    UnaryIsParsed(op, operand, ts, [RP] + rest);
    assert [LP, UnaryToken(op)] + ts == [LP] + ([UnaryToken(op)] + ts);
    InParentheses([UnaryToken(op)] + ts, Unary(op, operand), rest);
  }

  lemma {:induction false} WrittenUnaryIsParsed(e: Expr, rest: seq<Token>)
    requires e.Unary? && Printable(e) && Follows(rest)
    ensures ParsePrimary(Write(e, rest)) == Parsed(e, rest) && StartsOperand(Write(e, rest))
    decreases e, 1
  {
    var end := [RP] + rest;
    WrittenIsParsed(e.operand, end);
    UnaryInParentheses(e.op, e.operand, Write(e.operand, end), rest);
  }

  lemma {:induction false} WrittenAggregateIsParsed(e: Expr, rest: seq<Token>)
    requires e.Aggregate? && Printable(e) && Follows(rest)
    ensures ParsePrimary(Write(e, rest)) == Parsed(e, rest) && StartsOperand(Write(e, rest))
    decreases e, 1
  {
    var Aggregate(kind, star, argument) := e;
    if star {
      StarIsParsed(kind, rest);
    } else {
      var end := [RP] + rest;
      WrittenIsParsed(argument, end);
      OperandIsWhole(Write(argument, end), argument, end);
      AggregateIsParsed(kind, argument, Write(argument, end), rest);
    }
  }

  lemma {:induction false} WrittenBinaryIsParsed(e: Expr, rest: seq<Token>)
    requires e.Binary? && Printable(e) && Follows(rest)
    ensures ParsePrimary(Write(e, rest)) == Parsed(e, rest) && StartsOperand(Write(e, rest))
    decreases e, 1
  {
    var Binary(op, left, right) := e;
    var end := [RP] + rest;
    WrittenIsParsed(right, end);
    var more := Write(right, end);
    var after := OperatorTokens(op) + more;
    OperatorFollows(op, more);
    WrittenIsParsed(left, after);
    BinaryIsParsed(op, Write(left, after), left, more, right, end);
    WrittenInParentheses(e, Write(left, after), rest);
  }

  lemma {:induction false} WrittenIsNullIsParsed(e: Expr, rest: seq<Token>)
    requires e.IsNull? && Printable(e) && Follows(rest)
    ensures ParsePrimary(Write(e, rest)) == Parsed(e, rest) && StartsOperand(Write(e, rest))
    decreases e, 1
  {
    var IsNull(operand, negated) := e;
    var end := [RP] + rest;
    assert [Token(KwNull, "null"), RP] + rest == [Token(KwNull, "null")] + end;
    var after := [Token(KwIs, "is")] + (NotTokens(negated) + ([Token(KwNull, "null")] + end));
    WrittenIsParsed(operand, after);
    IsNullIsParsed(Write(operand, after), operand, negated, end);
    WrittenInParentheses(e, Write(operand, after), rest);
  }

  lemma {:induction false} WrittenBetweenIsParsed(e: Expr, rest: seq<Token>)
    requires e.Between? && Printable(e) && Follows(rest)
    ensures ParsePrimary(Write(e, rest)) == Parsed(e, rest) && StartsOperand(Write(e, rest))
    decreases e, 1
  {
    var Between(operand, lower, upper, negated) := e;
    var end := [RP] + rest;
    WrittenIsParsed(upper, end);
    var high := Write(upper, end);
    var both := [Token(KwAnd, "and")] + high;
    WrittenIsParsed(lower, both);
    var low := Write(lower, both);
    var after := NotTokens(negated) + ([Token(KwBetween, "between")] + low);
    WrittenIsParsed(operand, after);
    BetweenIsParsed(Write(operand, after), operand, negated, low, lower, high, upper, end);
    WrittenInParentheses(e, Write(operand, after), rest);
  }

  lemma {:induction false} WrittenInIsParsed(e: Expr, rest: seq<Token>)
    requires e.In? && Printable(e) && Follows(rest)
    ensures ParsePrimary(Write(e, rest)) == Parsed(e, rest) && StartsOperand(Write(e, rest))
    decreases e, 1
  {
    var In(operand, options, negated) := e;
    var end := [RP] + rest;
    assert [RP, RP] + rest == [RP] + end;
    OptionsAreParsed(e, 0, [RP] + end);
    assert options[0..] == options;
    var list := WriteOptions(options, [RP] + end);
    var after := NotTokens(negated) + ([Token(KwIn, "in"), LP] + list);
    WrittenIsParsed(operand, after);
    InIsParsed(Write(operand, after), operand, negated, list, options, end);
    WrittenInParentheses(e, Write(operand, after), rest);
  }

  lemma LastOptionIsParsed(ts: seq<Token>, option: Expr, rest: seq<Token>)
    requires ParsePrimary(ts) == Parsed(option, rest) && StartsOperand(ts) && Type(rest, 0) == RightParen
    ensures ParseOptions(ts) == ParsedList([option], rest)
  {
    OperandIsWhole(ts, option, rest);
  }

  lemma NextOptionIsParsed(ts: seq<Token>, option: Expr, others: seq<Token>, options: seq<Expr>, rest: seq<Token>)
    requires ParsePrimary(ts) == Parsed(option, [COMMA] + others) && StartsOperand(ts)
    requires ParseOptions(others) == ParsedList(options, rest)
    ensures ParseOptions(ts) == ParsedList([option] + options, rest)
  {
    var after := [COMMA] + others;
    assert after[0] == COMMA && after[1..] == others;
    OperandIsWhole(ts, option, after);
  }

  lemma {:induction false} OptionsAreParsed(e: Expr, k: nat, rest: seq<Token>)
    requires e.In? && Printable(e) && k < |e.options| && Type(rest, 0) == RightParen
    ensures var list := WriteOptions(e.options[k..], rest);
            ParseOptions(list) == ParsedList(e.options[k..], rest) && StartsOperand(list)
    decreases e, 0, |e.options| - k
  {
    var first, m := e.options[k], k + 1;
    if m == |e.options| {
      WrittenIsParsed(first, rest);
      LastOptionIsParsed(Write(first, rest), first, rest);
      assert e.options[k..] == [first];
    } else {
      var tail := e.options[m..];
      OptionsAreParsed(e, m, rest);
      WrittenIsParsed(first, [COMMA] + WriteOptions(tail, rest));
      OneMoreIsParsed(first, tail, rest);
      assert e.options[k..] == [first] + tail;
    }
  }

  lemma OneMoreIsParsed(first: Expr, tail: seq<Expr>, rest: seq<Token>)
    requires tail != [] && ParseOptions(WriteOptions(tail, rest)) == ParsedList(tail, rest)
    requires var after := [COMMA] + WriteOptions(tail, rest);
             ParsePrimary(Write(first, after)) == Parsed(first, after) && StartsOperand(Write(first, after))
    ensures var list := WriteOptions([first] + tail, rest);
            ParseOptions(list) == ParsedList([first] + tail, rest) && StartsOperand(list)
  {
    var others := WriteOptions(tail, rest);
    NextOptionIsParsed(Write(first, [COMMA] + others), first, others, tail, rest);
    WriteMore(first, tail, rest);
  }

  lemma WriteMore(first: Expr, tail: seq<Expr>, rest: seq<Token>)
    requires tail != []
    ensures WriteOptions([first] + tail, rest) == Write(first, [COMMA] + WriteOptions(tail, rest))
  {
    assert ([first] + tail)[1..] == tail;
  }
}
