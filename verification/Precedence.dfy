/** Precedence and associativity: text with no more parentheses than they ask for is read as it was meant. */
module Precedence {
  import opened Wrappers
  import opened Expressions
  import opened Lexing
  import opened Grammar
  import opened Printing

  // ----- how tightly an expression holds together -----

  /** `or`, `and`, `not`, the tests behind a comparison, comparisons, sums, products, signs, and what needs no
      parentheses at all. */
  const OR: nat := 0
  const AND: nat := 1
  const NOT: nat := 2
  const TEST: nat := 3
  const COMPARISON: nat := 4
  const SUM: nat := 5
  const PRODUCT: nat := 6
  const SIGN: nat := 7
  const ATOM: nat := 8

  function OperatorLevel(op: string): nat {
    if op == "or" then OR
    else if op == "and" then AND
    else if op == "like" || op == "not like" then TEST
    else if op == "+" || op == "-" then SUM
    else if op == "*" || op == "/" then PRODUCT
    else COMPARISON
  }

  function Level(e: Expr): (k: nat)
    ensures k <= ATOM
  {
    match e
    case Binary(op, _, _) => OperatorLevel(op)
    case Unary(op, _) => if op == "not" then NOT else SIGN
    case IsNull(_, _) => TEST
    case Between(_, _, _, _) => TEST
    case In(_, _, _) => TEST
    case _ => ATOM
  }

  /** All operators but comparisons and tests take themselves as their left operand without parentheses. */
  function LeftLevel(op: string): nat {
    var k := OperatorLevel(op);
    if k == TEST || k == COMPARISON then k + 1 else k
  }

  function RightLevel(op: string): nat {
    var k := OperatorLevel(op);
    if k == TEST then SUM else k + 1
  }

  // ----- writing with few parentheses -----

  /** The tokens of an expression where at least level `k` is wanted, in front of the tokens that follow. */
  function Sparse(e: Expr, k: nat, rest: seq<Token>): seq<Token>
    decreases e, 1
  {
    if Level(e) < k then [LP] + Bare(e, [RP] + rest) else Bare(e, rest)
  }

  function Bare(e: Expr, rest: seq<Token>): seq<Token>
    decreases e, 0
  {
    match e
    case Binary(op, left, right) =>
      Sparse(left, LeftLevel(op), OperatorTokens(op) + Sparse(right, RightLevel(op), rest))
    case Unary(op, operand) => [UnaryToken(op)] + Sparse(operand, if op == "not" then NOT else SIGN, rest)
    case IsNull(operand, negated) =>
      Sparse(operand, COMPARISON, [Token(KwIs, "is")] + (NotTokens(negated) + ([Token(KwNull, "null")] + rest)))
    case Between(operand, lower, upper, negated) =>
      var high := Sparse(upper, SUM, rest);
      var low := Sparse(lower, SUM, [Token(KwAnd, "and")] + high);
      Sparse(operand, COMPARISON, NotTokens(negated) + ([Token(KwBetween, "between")] + low))
    case In(operand, options, negated) =>
      var list := SparseOptions(options, [RP] + rest);
      Sparse(operand, COMPARISON, NotTokens(negated) + ([Token(KwIn, "in"), LP] + list))
    case Aggregate(kind, star, argument) =>
      [Token(Identifier, AggregateName(kind)), LP]
      + (if star then [Token(Star, "*"), RP] + rest else Sparse(argument, OR, [RP] + rest))
    case _ => Write(e, rest)
  }

  function SparseOptions(options: seq<Expr>, rest: seq<Token>): seq<Token> {
    if options == [] then rest
    else Sparse(options[0], OR, if |options| == 1 then rest else [COMMA] + SparseOptions(options[1..], rest))
  }

  // ----- the levels of the parser -----

  /** A comparison, without a test behind it. */
  function ParseCompared(ts: seq<Token>): Parse {
    var left := ParseAdditive(ts);
    if left.Failed? then left
    else if IsComparisonType(Type(left.rest, 0)) then
      var right := ParseAdditive(left.rest[1..]);
      if right.Failed? then right else Parsed(Binary(left.rest[0].lexeme, left.e, right.e), right.rest)
    else left
  }

  function ParseLevel(k: nat, ts: seq<Token>): Parse {
    match k
    case 0 => ParseOr(ts)
    case 1 => ParseAnd(ts)
    case 2 => ParseNot(ts)
    case 3 => ParseComparison(ts)
    case 4 => ParseCompared(ts)
    case 5 => ParseAdditive(ts)
    case 6 => ParseMultiplicative(ts)
    case 7 => ParseUnary(ts)
    case _ => ParsePrimary(ts)
  }

  /** How a level goes on when it has read `e`. */
  function GoesOn(k: nat, e: Expr, rest: seq<Token>): Parse {
    match k
    case 0 => OrTail(e, rest)
    case 1 => AndTail(e, rest)
    case 5 => AdditiveTail(e, rest)
    case 6 => MultiplicativeTail(e, rest)
    case _ => Parsed(e, rest)
  }

  /** Nothing in `rest` belongs to a level above `k`. */
  predicate Stops(k: nat, rest: seq<Token>) {
    var t := Type(rest, 0);
    && Follows(rest)
    && (k <= SUM ==> !IsMultiplicativeType(t))
    && (k <= COMPARISON ==> !IsAdditiveType(t) && !IsComparisonType(t))
    && (k <= TEST ==> EndsComparison(rest))
    && (k == OR ==> t != KwAnd)
  }

  predicate StartsAt(k: nat, ts: seq<Token>) {
    && ts != [] && ts[0].t != KwSelect && ts[0].t != Star
    && (k >= TEST ==> ts[0].t != KwNot)
    && (k >= ATOM ==> ts[0].t != Minus)
  }

  /** Level `k` reads `e` off the tokens. */
  predicate IsRead(e: Expr, k: nat, ts: seq<Token>, rest: seq<Token>) {
    ParseLevel(k, ts) == GoesOn(k, e, rest) && StartsAt(k, ts)
  }

  lemma OneLevelDown(e: Expr, k: nat, ts: seq<Token>, rest: seq<Token>)
    requires k < ATOM && IsRead(e, k + 1, ts, rest) && Stops(k, rest)
    ensures IsRead(e, k, ts, rest)
  {
    if k <= NOT { ToConnective(e, k, ts, rest); } else if k == TEST { ToTest(e, ts, rest); } else {
      ToOperator(e, k, ts, rest);
    }
  }

  lemma ToConnective(e: Expr, k: nat, ts: seq<Token>, rest: seq<Token>)
    requires k <= NOT && IsRead(e, k + 1, ts, rest) && Stops(k, rest)
    ensures IsRead(e, k, ts, rest)
  {
  }

  lemma ToTest(e: Expr, ts: seq<Token>, rest: seq<Token>)
    requires IsRead(e, COMPARISON, ts, rest) && Stops(TEST, rest)
    ensures IsRead(e, TEST, ts, rest)
  {
    NoSuffix(e, rest);
  }

  lemma ToOperator(e: Expr, k: nat, ts: seq<Token>, rest: seq<Token>)
    requires COMPARISON <= k < ATOM && IsRead(e, k + 1, ts, rest) && Stops(k, rest)
    ensures IsRead(e, k, ts, rest)
  {
  }

  lemma StopsAbove(k: nat, i: nat, rest: seq<Token>)
    requires k <= i && Stops(k, rest)
    ensures Stops(i, rest)
  {
  }

  lemma {:induction false} Descends(e: Expr, j: nat, k: nat, ts: seq<Token>, rest: seq<Token>)
    requires k <= j <= ATOM && IsRead(e, j, ts, rest) && Stops(k, rest)
    ensures IsRead(e, k, ts, rest)
    decreases j - k
  {
    if k < j {
      var i := j - 1;
      StopsAbove(k, i, rest);
      OneLevelDown(e, i, ts, rest);
      Descends(e, i, k, ts, rest);
    }
  }

  /** In parentheses everything is an atom. */
  lemma Parenthesised(e: Expr, ts: seq<Token>, rest: seq<Token>)
    requires IsRead(e, OR, ts, [RP] + rest)
    ensures IsRead(e, ATOM, [LP] + ts, rest)
  {
    InParentheses(ts, e, rest);
  }

  // ----- one operator -----

  lemma OrIsRead(left: Expr, right: Expr, ts: seq<Token>, more: seq<Token>, rest: seq<Token>)
    requires IsRead(left, OR, ts, [Token(KwOr, "or")] + more) && IsRead(right, AND, more, rest) && Stops(OR, rest)
    ensures IsRead(Binary("or", left, right), OR, ts, rest)
  {
    var after := [Token(KwOr, "or")] + more;
    assert after[0].t == KwOr && after[1..] == more;
  }

  lemma AndIsRead(left: Expr, right: Expr, ts: seq<Token>, more: seq<Token>, rest: seq<Token>)
    requires IsRead(left, AND, ts, [Token(KwAnd, "and")] + more) && IsRead(right, NOT, more, rest) && Stops(AND, rest)
    ensures IsRead(Binary("and", left, right), AND, ts, rest)
  {
    var after := [Token(KwAnd, "and")] + more;
    assert after[0].t == KwAnd && after[1..] == more;
  }

  lemma LikeIsRead(left: Expr, right: Expr, negated: bool, ts: seq<Token>, more: seq<Token>, rest: seq<Token>)
    requires IsRead(left, COMPARISON, ts, NotTokens(negated) + ([Token(KwLike, "like")] + more))
    requires IsRead(right, SUM, more, rest) && Stops(TEST, rest)
    ensures IsRead(Binary(if negated then "not like" else "like", left, right), TEST, ts, rest)
  {
    LikeIsSuffix(left, right, negated, more, rest);
    TestIsRead(left, Binary(if negated then "not like" else "like", left, right), ts,
               NotTokens(negated) + ([Token(KwLike, "like")] + more), rest);
  }

  lemma LikeIsSuffix(left: Expr, right: Expr, negated: bool, more: seq<Token>, rest: seq<Token>)
    requires ParseAdditive(more) == GoesOn(SUM, right, rest) && Stops(TEST, rest)
    ensures ParseSuffix(left, NotTokens(negated) + ([Token(KwLike, "like")] + more))
         == Parsed(Binary(if negated then "not like" else "like", left, right), rest)
  {
    var test := [Token(KwLike, "like")] + more;
    assert test[0].t == KwLike && test[1..] == more;
    NegationIsRead(left, negated, test);
    assert ParseAdditive(more) == Parsed(right, rest);
  }

  lemma ComparisonIsRead(left: Expr, op: Token, right: Expr, ts: seq<Token>, more: seq<Token>, rest: seq<Token>)
    requires IsComparisonType(op.t) && IsRead(left, SUM, ts, [op] + more) && IsRead(right, SUM, more, rest)
    requires Stops(COMPARISON, rest)
    ensures IsRead(Binary(op.lexeme, left, right), COMPARISON, ts, rest)
  {
    var after := [op] + more;
    assert after[0] == op && after[1..] == more;
  }

  lemma SumIsRead(left: Expr, op: Token, right: Expr, ts: seq<Token>, more: seq<Token>, rest: seq<Token>)
    requires IsAdditiveType(op.t) && IsRead(left, SUM, ts, [op] + more) && IsRead(right, PRODUCT, more, rest)
    requires Stops(SUM, rest)
    ensures IsRead(Binary(op.lexeme, left, right), SUM, ts, rest)
  {
    var after := [op] + more;
    assert after[0] == op && after[1..] == more;
  }

  lemma ProductIsRead(left: Expr, op: Token, right: Expr, ts: seq<Token>, more: seq<Token>, rest: seq<Token>)
    requires IsMultiplicativeType(op.t) && IsRead(left, PRODUCT, ts, [op] + more) && IsRead(right, SIGN, more, rest)
    requires Stops(PRODUCT, rest)
    ensures IsRead(Binary(op.lexeme, left, right), PRODUCT, ts, rest)
  {
    var after := [op] + more;
    assert after[0] == op && after[1..] == more;
  }

  /** The level of a symbol is the one the parser reads it at. */
  lemma SymbolLevel(op: string)
    requires IsOperator(op) && !IsWordOperator(op)
    ensures OperatorTokens(op) == [SymbolToken(op)] && SymbolToken(op).lexeme == op
    ensures var t, k := SymbolToken(op).t, OperatorLevel(op);
            (k == COMPARISON <==> IsComparisonType(t)) && (k == SUM <==> IsAdditiveType(t))
            && (k == PRODUCT <==> IsMultiplicativeType(t)) && COMPARISON <= k <= PRODUCT
  {
    SymbolClass(op);
  }

  lemma OperatorStops(op: string, more: seq<Token>)
    requires IsOperator(op)
    ensures Stops(LeftLevel(op), OperatorTokens(op) + more)
  {
    var after := OperatorTokens(op) + more;
    if IsWordOperator(op) {
      assert Type(after, 0) == OperatorTokens(op)[0].t;
    } else {
      SymbolLevel(op);
      assert Type(after, 0) == SymbolToken(op).t;
    }
  }

  lemma SymbolIsRead(op: string, left: Expr, right: Expr, ts: seq<Token>, more: seq<Token>, rest: seq<Token>)
    requires IsOperator(op) && !IsWordOperator(op) && Stops(OperatorLevel(op), rest)
    requires IsRead(left, LeftLevel(op), ts, OperatorTokens(op) + more) && IsRead(right, RightLevel(op), more, rest)
    ensures IsRead(Binary(op, left, right), OperatorLevel(op), ts, rest)
  {
    SymbolLevel(op);
    if OperatorLevel(op) == COMPARISON {
      ComparisonIsRead(left, SymbolToken(op), right, ts, more, rest);
    } else if OperatorLevel(op) == SUM {
      SumIsRead(left, SymbolToken(op), right, ts, more, rest);
    } else {
      ProductIsRead(left, SymbolToken(op), right, ts, more, rest);
    }
  }

  lemma OperatorIsRead(op: string, left: Expr, right: Expr, ts: seq<Token>, more: seq<Token>, rest: seq<Token>)
    requires IsOperator(op) && Stops(OperatorLevel(op), rest)
    requires IsRead(left, LeftLevel(op), ts, OperatorTokens(op) + more) && IsRead(right, RightLevel(op), more, rest)
    ensures IsRead(Binary(op, left, right), OperatorLevel(op), ts, rest)
  {
    if op == "or" {
      OrIsRead(left, right, ts, more, rest);
    } else if op == "and" {
      AndIsRead(left, right, ts, more, rest);
    } else if op == "like" || op == "not like" {
      LikeTokens(op == "not like", more);
      LikeIsRead(left, right, op == "not like", ts, more, rest);
    } else {
      SymbolIsRead(op, left, right, ts, more, rest);
    }
  }

  lemma SignIsRead(op: string, operand: Expr, ts: seq<Token>, rest: seq<Token>)
    requires op == "not" || op == "-"
    requires IsRead(operand, if op == "not" then NOT else SIGN, ts, rest)
    ensures IsRead(Unary(op, operand), if op == "not" then NOT else SIGN, [UnaryToken(op)] + ts, rest)
  {
    var all := [UnaryToken(op)] + ts;
    assert all[0] == UnaryToken(op) && all[1..] == ts;
  }

  // ----- tests -----

  /** A test behind an operand. */
  lemma TestIsRead(operand: Expr, e: Expr, ts: seq<Token>, after: seq<Token>, rest: seq<Token>)
    requires IsRead(operand, COMPARISON, ts, after) && ParseSuffix(operand, after) == Parsed(e, rest)
    ensures IsRead(e, TEST, ts, rest)
  {
  }

  lemma BetweenIsRead(operand: Expr, lower: Expr, upper: Expr, negated: bool, ts: seq<Token>, low: seq<Token>,
                      high: seq<Token>, rest: seq<Token>)
    requires IsRead(operand, COMPARISON, ts, NotTokens(negated) + ([Token(KwBetween, "between")] + low))
    requires IsRead(lower, SUM, low, [Token(KwAnd, "and")] + high) && IsRead(upper, SUM, high, rest)
    requires Stops(TEST, rest)
    ensures IsRead(Between(operand, lower, upper, negated), TEST, ts, rest)
  {
    var test, both := [Token(KwBetween, "between")] + low, [Token(KwAnd, "and")] + high;
    assert test[0].t == KwBetween && test[1..] == low && both[0].t == KwAnd && both[1..] == high;
    NegationIsRead(operand, negated, test);
    TestIsRead(operand, Between(operand, lower, upper, negated), ts, NotTokens(negated) + test, rest);
  }

  lemma InIsRead(operand: Expr, options: seq<Expr>, negated: bool, ts: seq<Token>, list: seq<Token>, rest: seq<Token>)
    requires IsRead(operand, COMPARISON, ts, NotTokens(negated) + ([Token(KwIn, "in"), LP] + list))
    requires ParseOptions(list) == ParsedList(options, [RP] + rest) && Type(list, 0) != KwSelect
    ensures IsRead(In(operand, options, negated), TEST, ts, rest)
  {
    var test := [Token(KwIn, "in"), LP] + list;
    assert test[0].t == KwIn && test[1] == LP && test[2..] == list && Type(test, 2) == Type(list, 0);
    NegationIsRead(operand, negated, test);
    assert ([RP] + rest)[1..] == rest;
    TestIsRead(operand, In(operand, options, negated), ts, NotTokens(negated) + test, rest);
  }

  lemma NegatedStops(negated: bool, t: Token, more: seq<Token>)
    requires t.t in {KwBetween, KwIn, KwLike}
    ensures Stops(COMPARISON, NotTokens(negated) + ([t] + more))
  {
    assert Type(NotTokens(negated) + ([t] + more), 0) in {KwNot, t.t};
  }

  lemma EmptyTail(negated: bool, t: Token, more: seq<Token>)
    ensures NotTokens(negated) + ([t, LP] + more) == NotTokens(negated) + ([t] + ([LP] + more))
  {
    assert [t, LP] + more == [t] + ([LP] + more);
  }

  // ----- all expressions -----

  /** Where level `k` is wanted, what was written is read back, whatever follows it. */
  lemma {:induction false} SparseIsRead(e: Expr, k: nat, rest: seq<Token>)
    requires Printable(e) && k <= ATOM && Stops(k, rest)
    ensures IsRead(e, k, Sparse(e, k, rest), rest)
    decreases e, 3
  {
    if Level(e) < k {
      var end := [RP] + rest;
      BareIsRead(e, end);
      Descends(e, Level(e), OR, Bare(e, end), end);
      Parenthesised(e, Bare(e, end), rest);
      Descends(e, ATOM, k, [LP] + Bare(e, end), rest);
    } else {
      BareIsRead(e, rest);
      Descends(e, Level(e), k, Bare(e, rest), rest);
    }
  }

  lemma {:induction false} BareIsRead(e: Expr, rest: seq<Token>)
    requires Printable(e) && Stops(Level(e), rest)
    ensures IsRead(e, Level(e), Bare(e, rest), rest)
    decreases e, 2
  {
    match e
    case Column(tableName, name) => ColumnIsParsed(tableName, name, rest);
    case Literal(kind, integer, text) => LiteralIsParsed(kind, integer, text, rest);
    case Binary(op, left, right) =>
      var more := Sparse(right, RightLevel(op), rest);
      SparseIsRead(right, RightLevel(op), rest);
      OperatorStops(op, more);
      SparseIsRead(left, LeftLevel(op), OperatorTokens(op) + more);
      OperatorIsRead(op, left, right, Sparse(left, LeftLevel(op), OperatorTokens(op) + more), more, rest);
    case Unary(op, operand) =>
      var k := if op == "not" then NOT else SIGN;
      SparseIsRead(operand, k, rest);
      SignIsRead(op, operand, Sparse(operand, k, rest), rest);
    case IsNull(operand, negated) =>
      var after := [Token(KwIs, "is")] + (NotTokens(negated) + ([Token(KwNull, "null")] + rest));
      IsNullIsSuffix(operand, negated, rest);
      SparseIsRead(operand, COMPARISON, after);
      TestIsRead(operand, e, Sparse(operand, COMPARISON, after), after, rest);
    case Between(_, _, _, _) => BareBetweenIsRead(e, rest);
    case In(_, _, _) => BareInIsRead(e, rest);
    case Aggregate(_, _, _) => BareAggregateIsRead(e, rest);
    case _ =>
  }

  lemma {:induction false} BareBetweenIsRead(e: Expr, rest: seq<Token>)
    requires e.Between? && Printable(e) && Stops(TEST, rest)
    ensures IsRead(e, TEST, Bare(e, rest), rest)
    decreases e, 1
  {
    var Between(operand, lower, upper, negated) := e;
    var high := Sparse(upper, SUM, rest);
    SparseIsRead(upper, SUM, rest);
    var both := [Token(KwAnd, "and")] + high;
    var low := Sparse(lower, SUM, both);
    SparseIsRead(lower, SUM, both);
    var after := NotTokens(negated) + ([Token(KwBetween, "between")] + low);
    NegatedStops(negated, Token(KwBetween, "between"), low);
    SparseIsRead(operand, COMPARISON, after);
    BetweenIsRead(operand, lower, upper, negated, Sparse(operand, COMPARISON, after), low, high, rest);
  }

  lemma {:induction false} BareInIsRead(e: Expr, rest: seq<Token>)
    requires e.In? && Printable(e) && Stops(TEST, rest)
    ensures IsRead(e, TEST, Bare(e, rest), rest)
    decreases e, 1
  {
    var In(operand, options, negated) := e;
    assert options[0..] == options;
    OptionsAreRead(e, 0, [RP] + rest);
    var list := SparseOptions(options, [RP] + rest);
    var after := NotTokens(negated) + ([Token(KwIn, "in"), LP] + list);
    EmptyTail(negated, Token(KwIn, "in"), list);
    NegatedStops(negated, Token(KwIn, "in"), [LP] + list);
    SparseIsRead(operand, COMPARISON, after);
    InIsRead(operand, options, negated, Sparse(operand, COMPARISON, after), list, rest);
  }

  lemma {:induction false} BareAggregateIsRead(e: Expr, rest: seq<Token>)
    requires e.Aggregate? && Printable(e) && Stops(ATOM, rest)
    ensures IsRead(e, ATOM, Bare(e, rest), rest)
    decreases e, 1
  {
    var Aggregate(kind, star, argument) := e;
    if star {
      StarIsParsed(kind, rest);
    } else {
      var end := [RP] + rest;
      SparseIsRead(argument, OR, end);
      AggregateIsParsed(kind, argument, Sparse(argument, OR, end), rest);
    }
  }

  lemma {:induction false} OptionsAreRead(e: Expr, k: nat, rest: seq<Token>)
    requires e.In? && Printable(e) && k < |e.options| && Type(rest, 0) == RightParen
    ensures var list := SparseOptions(e.options[k..], rest);
            ParseOptions(list) == ParsedList(e.options[k..], rest) && StartsAt(OR, list)
    decreases e, 0, |e.options| - k
  {
    var first, m := e.options[k], k + 1;
    var options := e.options[k..];
    if m == |e.options| {
      assert options == [first];
      SparseIsRead(first, OR, rest);
    } else {
      var tail := e.options[m..];
      assert options[1..] == tail && options == [first] + tail;
      OptionsAreRead(e, m, rest);
      var after := [COMMA] + SparseOptions(tail, rest);
      assert after[0] == COMMA && after[1..] == SparseOptions(tail, rest);
      SparseIsRead(first, OR, after);
    }
  }

  /** An expression written with as few parentheses as precedence and associativity ask for is read back. */
  lemma SparseThenParse(e: Expr)
    requires Printable(e)
    ensures ParseOr(Sparse(e, OR, [END])) == Parsed(e, [END])
  {
    SparseIsRead(e, OR, [END]);
  }

  function Name(a: string, rest: seq<Token>): seq<Token> { [Token(Identifier, a)] + rest }

  lemma NameIsWritten(a: string, k: nat, rest: seq<Token>)
    requires k <= ATOM
    ensures Sparse(Column("", a), k, rest) == Name(a, rest)
  {
  }

  lemma NamesAreWritten(op: string, a: string, b: string, k: nat, rest: seq<Token>)
    requires k <= OperatorLevel(op)
    ensures Sparse(Binary(op, Column("", a), Column("", b)), k, rest) == Name(a, OperatorTokens(op) + Name(b, rest))
  {
    NameIsWritten(b, RightLevel(op), rest);
    NameIsWritten(a, LeftLevel(op), OperatorTokens(op) + Name(b, rest));
  }

  /** Of two operators in a row the one that holds more tightly comes first, and of two that hold alike the left one. */
  lemma TwoOperators(op: string, op2: string, a: string, b: string, c: string)
    requires IsOperator(op) && IsOperator(op2) && IsName(a) && IsName(b) && IsName(c)
    requires LeftLevel(op2) <= OperatorLevel(op) || RightLevel(op) <= OperatorLevel(op2)
    ensures var ts := Name(a, OperatorTokens(op) + Name(b, OperatorTokens(op2) + Name(c, [END])));
            var left, middle, right := Column("", a), Column("", b), Column("", c);
            ParseOr(ts) == Parsed(if LeftLevel(op2) <= OperatorLevel(op) then
                                    Binary(op2, Binary(op, left, middle), right)
                                  else Binary(op, left, Binary(op2, middle, right)), [END])
  {
    var left, middle, right := Column("", a), Column("", b), Column("", c);
    if LeftLevel(op2) <= OperatorLevel(op) {
      LeftFirst(op, op2, a, b, c);
    } else {
      RightFirst(op, op2, a, b, c);
    }
  }

  lemma LeftFirst(op: string, op2: string, a: string, b: string, c: string)
    requires IsOperator(op) && IsOperator(op2) && IsName(a) && IsName(b) && IsName(c)
    requires LeftLevel(op2) <= OperatorLevel(op)
    ensures var e := Binary(op2, Binary(op, Column("", a), Column("", b)), Column("", c));
            ParseOr(Name(a, OperatorTokens(op) + Name(b, OperatorTokens(op2) + Name(c, [END])))) == Parsed(e, [END])
  {
    var pair := Binary(op, Column("", a), Column("", b));
    NameIsWritten(c, RightLevel(op2), [END]);
    NamesAreWritten(op, a, b, LeftLevel(op2), OperatorTokens(op2) + Name(c, [END]));
    SparseThenParse(Binary(op2, pair, Column("", c)));
  }

  lemma RightFirst(op: string, op2: string, a: string, b: string, c: string)
    requires IsOperator(op) && IsOperator(op2) && IsName(a) && IsName(b) && IsName(c)
    requires RightLevel(op) <= OperatorLevel(op2)
    ensures var e := Binary(op, Column("", a), Binary(op2, Column("", b), Column("", c)));
            ParseOr(Name(a, OperatorTokens(op) + Name(b, OperatorTokens(op2) + Name(c, [END])))) == Parsed(e, [END])
  {
    var pair := Binary(op2, Column("", b), Column("", c));
    NamesAreWritten(op2, b, c, RightLevel(op), [END]);
    NameIsWritten(a, LeftLevel(op), OperatorTokens(op) + Name(b, OperatorTokens(op2) + Name(c, [END])));
    SparseThenParse(Binary(op, Column("", a), pair));
  }
}
