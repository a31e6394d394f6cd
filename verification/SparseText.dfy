/** The text of an expression with few parentheses, and that it is read back. */
module SparseText {
  import opened Wrappers
  import opened Expressions
  import opened Lexing
  import opened Grammar
  import opened Printing
  import opened PrintParse
  import opened Precedence
  import opened Parsing

  // ----- the text -----

  /** The text of an expression where at least level `k` is wanted, in front of more text. */
  function SparseThen(e: Expr, k: nat, rest: string): string
    decreases e, 1
  {
    if Level(e) < k then "(" + BareThen(e, ")" + rest) else BareThen(e, rest)
  }

  function BareThen(e: Expr, rest: string): string
    decreases e, 0
  {
    match e
    case Binary(op, left, right) =>
      SparseThen(left, LeftLevel(op), " " + (op + (" " + SparseThen(right, RightLevel(op), rest))))
    case Unary(op, operand) => op + (" " + SparseThen(operand, if op == "not" then NOT else SIGN, rest))
    case IsNull(operand, negated) =>
      SparseThen(operand, COMPARISON, " " + ("is" + (" " + NotThen(negated, "null" + rest))))
    case Between(operand, lower, upper, negated) =>
      var high := SparseThen(upper, SUM, rest);
      var low := SparseThen(lower, SUM, " " + ("and" + (" " + high)));
      SparseThen(operand, COMPARISON, " " + NotThen(negated, "between" + (" " + low)))
    case In(operand, options, negated) =>
      var list := SparseOptionsThen(options, ")" + rest);
      SparseThen(operand, COMPARISON, " " + NotThen(negated, "in" + (" " + ("(" + list))))
    case Aggregate(kind, star, argument) =>
      AggregateName(kind) + ("(" + (if star then "*" + (")" + rest) else SparseThen(argument, OR, ")" + rest)))
    case _ => TextThen(e, rest)
  }

  function SparseOptionsThen(options: seq<Expr>, rest: string): string {
    if options == [] then rest
    else SparseThen(options[0], OR,
                    if |options| == 1 then rest else "," + (" " + SparseOptionsThen(options[1..], rest)))
  }

  function SparseText(e: Expr): string { SparseThen(e, OR, "") }

  // ----- its tokens -----

  lemma SignIsLexed(op: string, s: string, ts: seq<Token>)
    requires (op == "not" || op == "-") && LexesTo(s, ts)
    ensures LexesTo(op + (" " + s), [UnaryToken(op)] + ts)
  {
    if op == "not" {
      NotIsLexed(true, s, ts);
    } else {
      SpaceIsLexed(s, ts);
      SymbolIsLexed("-", " " + s, ts);
    }
  }

  lemma NullTestIsLexed(negated: bool, rest: string, ts: seq<Token>)
    requires LexesTo(rest, ts) && Delimited(rest)
    ensures LexesTo(" " + ("is" + (" " + NotThen(negated, "null" + rest))),
                    [Token(KwIs, "is")] + (NotTokens(negated) + ([Token(KwNull, "null")] + ts)))
  {
    KeywordsAreWords();
    ConstantsAreWords();
    var last, tokens := "null" + rest, [Token(KwNull, "null")] + ts;
    WordIsLexed("null", rest, ts);
    NotIsLexed(negated, last, tokens);
    KeywordIsLexed("is", NotThen(negated, last), NotTokens(negated) + tokens);
    SpaceIsLexed("is" + (" " + NotThen(negated, last)), [Token(KwIs, "is")] + (NotTokens(negated) + tokens));
  }

  lemma {:induction false} SparseIsLexed(e: Expr, k: nat, rest: string, ts: seq<Token>)
    requires Printable(e) && Delimited(rest) && LexesTo(rest, ts)
    ensures LexesTo(SparseThen(e, k, rest), Sparse(e, k, ts))
    decreases e, 3
  {
    if Level(e) < k {
      CloseIsLexed(rest, ts);
      BareIsLexed(e, ")" + rest, [RP] + ts);
      OpenIsLexed(BareThen(e, ")" + rest), Bare(e, [RP] + ts));
    } else {
      BareIsLexed(e, rest, ts);
    }
  }

  lemma {:induction false} BareIsLexed(e: Expr, rest: string, ts: seq<Token>)
    requires Printable(e) && Delimited(rest) && LexesTo(rest, ts)
    ensures LexesTo(BareThen(e, rest), Bare(e, ts))
    decreases e, 2
  {
    match e
    case Column(tableName, name) => ColumnIsLexed(tableName, name, rest, ts);
    case Literal(kind, integer, text) => LiteralIsLexed(kind, integer, text, rest, ts);
    case Binary(op, left, right) =>
      SparseIsLexed(right, RightLevel(op), rest, ts);
      var s, more := SparseThen(right, RightLevel(op), rest), Sparse(right, RightLevel(op), ts);
      SpaceIsLexed(s, more);
      OperatorIsLexed(op, " " + s, more);
      SpaceIsLexed(op + (" " + s), OperatorTokens(op) + more);
      SparseIsLexed(left, LeftLevel(op), " " + (op + (" " + s)), OperatorTokens(op) + more);
    case Unary(op, operand) =>
      var k := if op == "not" then NOT else SIGN;
      SparseIsLexed(operand, k, rest, ts);
      SignIsLexed(op, SparseThen(operand, k, rest), Sparse(operand, k, ts));
    case IsNull(operand, negated) =>
      NullTestIsLexed(negated, rest, ts);
      SparseIsLexed(operand, COMPARISON, " " + ("is" + (" " + NotThen(negated, "null" + rest))),
                    [Token(KwIs, "is")] + (NotTokens(negated) + ([Token(KwNull, "null")] + ts)));
    case Between(_, _, _, _) => BareBetweenIsLexed(e, rest, ts);
    case In(_, _, _) => BareInIsLexed(e, rest, ts);
    case Aggregate(_, _, _) => BareAggregateIsLexed(e, rest, ts);
    case _ =>
  }

  lemma {:induction false} BareBetweenIsLexed(e: Expr, rest: string, ts: seq<Token>)
    requires e.Between? && Printable(e) && Delimited(rest) && LexesTo(rest, ts)
    ensures LexesTo(BareThen(e, rest), Bare(e, ts))
    decreases e, 1
  {
    var Between(operand, lower, upper, negated) := e;
    KeywordsAreWords();
    SparseIsLexed(upper, SUM, rest, ts);
    var high, highs := SparseThen(upper, SUM, rest), Sparse(upper, SUM, ts);
    KeywordIsLexed("and", high, highs);
    SpaceIsLexed("and" + (" " + high), [Token(KwAnd, "and")] + highs);
    var both, boths := " " + ("and" + (" " + high)), [Token(KwAnd, "and")] + highs;
    SparseIsLexed(lower, SUM, both, boths);
    var low, lows := SparseThen(lower, SUM, both), Sparse(lower, SUM, boths);
    KeywordIsLexed("between", low, lows);
    var test, tests := "between" + (" " + low), [Token(KwBetween, "between")] + lows;
    NotIsLexed(negated, test, tests);
    SpaceIsLexed(NotThen(negated, test), NotTokens(negated) + tests);
    SparseIsLexed(operand, COMPARISON, " " + NotThen(negated, test), NotTokens(negated) + tests);
  }

  lemma {:induction false} BareInIsLexed(e: Expr, rest: string, ts: seq<Token>)
    requires e.In? && Printable(e) && Delimited(rest) && LexesTo(rest, ts)
    ensures LexesTo(BareThen(e, rest), Bare(e, ts))
    decreases e, 1
  {
    var In(operand, options, negated) := e;
    CloseIsLexed(rest, ts);
    assert options[0..] == options;
    SparseOptionsAreLexed(e, 0, ")" + rest, [RP] + ts);
    var list, lists := SparseOptionsThen(options, ")" + rest), SparseOptions(options, [RP] + ts);
    InListIsLexed(negated, list, lists);
    SparseIsLexed(operand, COMPARISON, " " + NotThen(negated, "in" + (" " + ("(" + list))),
                  NotTokens(negated) + ([Token(KwIn, "in"), LP] + lists));
  }

  lemma {:induction false} SparseOptionsAreLexed(e: Expr, k: nat, rest: string, ts: seq<Token>)
    requires e.In? && Printable(e) && k < |e.options| && Delimited(rest) && LexesTo(rest, ts)
    ensures LexesTo(SparseOptionsThen(e.options[k..], rest), SparseOptions(e.options[k..], ts))
    decreases e, 0, |e.options| - k
  {
    var options := e.options[k..];
    if |options| == 1 {
      SparseIsLexed(options[0], OR, rest, ts);
    } else {
      var m := k + 1;
      assert options[1..] == e.options[m..];
      SparseOptionsAreLexed(e, m, rest, ts);
      var others, tokens := SparseOptionsThen(options[1..], rest), SparseOptions(options[1..], ts);
      SpaceIsLexed(others, tokens);
      PunctuationIsLexed(',', " " + others, tokens);
      SparseIsLexed(options[0], OR, "," + (" " + others), [COMMA] + tokens);
    }
  }

  lemma {:induction false} BareAggregateIsLexed(e: Expr, rest: string, ts: seq<Token>)
    requires e.Aggregate? && Printable(e) && Delimited(rest) && LexesTo(rest, ts)
    ensures LexesTo(BareThen(e, rest), Bare(e, ts))
    decreases e, 1
  {
    var Aggregate(kind, star, argument) := e;
    CloseIsLexed(rest, ts);
    if star {
      PunctuationIsLexed('*', ")" + rest, [RP] + ts);
      assert [Token(Star, "*")] + ([RP] + ts) == [Token(Star, "*"), RP] + ts;
      CallIsLexed(kind, "*" + (")" + rest), [Token(Star, "*"), RP] + ts);
    } else {
      SparseIsLexed(argument, OR, ")" + rest, [RP] + ts);
      CallIsLexed(kind, SparseThen(argument, OR, ")" + rest), Sparse(argument, OR, [RP] + ts));
    }
  }

  // ----- reading it -----

  /** Text with no more parentheses than precedence and associativity ask for is read back as the expression. */
  lemma SparseTextIsRead(e: Expr)
    requires Printable(e)
    ensures Lex(SparseText(e)).Some? && ParseOr(Lex(SparseText(e)).value) == Parsed(e, [END])
  {
    LexesToMeans("", [END]);
    SparseIsLexed(e, OR, "", [END]);
    LexesToMeans(SparseText(e), Sparse(e, OR, [END]));
    SparseThenParse(e);
  }

  /** The parser, run on that text. */
  method PrintSparselyAndRead(e: Expr) returns (r: Outcome, finished: bool)
    requires Printable(e)
    ensures r == Got(e) && finished
  {
    SparseTextIsRead(e);
    r, finished := ReadText(SparseText(e));
  }

  /** A minus sign right in front of a digit belongs to the number: `a-1` is no difference, and the number is left
      over. */
  lemma MinusBeforeDigit(name: string, n: int)
    requires IsName(name) && n < 0
    ensures Lex(name + ToString(n)).Some?
    ensures ParseOr(Lex(name + ToString(n)).value) == Parsed(Column("", name), [Token(Integer, ToString(n)), END])
  {
    var rest := [Token(Integer, ToString(n)), END];
    NumberTokens(n);
    NameIsLexed(name, ToString(n), rest);
    LexesToMeans(name + ToString(n), [Token(Identifier, name)] + rest);
    ColumnIsParsed("", name, rest);
    NameStandsAlone(name, rest);
  }

  lemma NumberTokens(n: int)
    requires n < 0
    ensures LexesTo(ToString(n), [Token(Integer, ToString(n)), END]) && EndsWord(ToString(n))
  {
    LexesToMeans("", [END]);
    NumberIsLexed(n, "", [END]);
    assert ToString(n) + "" == ToString(n);
    assert [Token(Integer, ToString(n))] + [END] == [Token(Integer, ToString(n)), END];
  }

  lemma NameStandsAlone(name: string, rest: seq<Token>)
    requires rest != [] && rest[0].t == Integer
    requires ParsePrimary([Token(Identifier, name)] + rest) == Parsed(Column("", name), rest)
    ensures ParseOr([Token(Identifier, name)] + rest) == Parsed(Column("", name), rest)
  {
    var ts, e := [Token(Identifier, name)] + rest, Column("", name);
    OperandLifts(ts, e, rest);
    assert ParseSuffix(e, rest) == Parsed(e, rest);
    assert ParseComparison(ts) == Parsed(e, rest);
    ComparisonLifts(ts, e, rest);
  }
}
