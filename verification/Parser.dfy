/** The recursive-descent parser for expressions: a cursor over the tokens, checked against the grammar. */
module Parsing {
  import opened Wrappers
  import opened Expressions
  import opened Lexing
  import opened Grammar
  import opened Printing
  import opened PrintParse

  datatype Outcome = Got(e: Expr) | Lost(error: ParseError)

  class Parser {
    const tokens: seq<Token>
    /** The next token that is not consumed yet. */
    var index: nat

    /** The end marker is never consumed. */
    ghost predicate Valid()
      reads this
    {
      index < |tokens| && tokens[|tokens| - 1].t == EndOfFile
    }

    ghost function Rest(): seq<Token>
      reads this
      requires Valid()
    {
      tokens[index..]
    }

    /** The outcome and the cursor are what the grammar says. */
    ghost predicate Reads(p: Parse, r: Outcome)
      reads this
    {
      Valid()
      && match p
         case Parsed(e, rest) => r == Got(e) && Rest() == rest
         case Failed(error) => r == Lost(error)
    }

    constructor (tokens: seq<Token>)
      requires tokens != [] && tokens[|tokens| - 1].t == EndOfFile
      ensures Valid() && this.tokens == tokens && index == 0 && Rest() == tokens
    {
      this.tokens := tokens;
      index := 0;
    }

    /** Looking one token ahead is safe because the end marker comes last. */
    function Peek(lookahead: nat): (t: TokenType)
      reads this
      requires Valid() && lookahead <= 1
      ensures t == Type(Rest(), lookahead)
    {
      if index + lookahead < |tokens| then tokens[index + lookahead].t else EndOfFile
    }

    method Advance()
      requires Valid() && Peek(0) != EndOfFile
      modifies this`index
      ensures Valid() && index == old(index) + 1 && Rest() == old(Rest())[1..]
    {
      index := index + 1;
    }

    method Match(t: TokenType) returns (matched: bool)
      requires Valid() && t != EndOfFile
      modifies this`index
      ensures Valid() && matched == (Type(old(Rest()), 0) == t)
      ensures index == old(index) + (if matched then 1 else 0)
      ensures Rest() == if matched then old(Rest())[1..] else old(Rest())
    {
      matched := Peek(0) == t;
      if matched { Advance(); }
    }

    /** The token to be read must be of this type. */
    method Expect(t: TokenType) returns (found: Option<Token>)
      requires Valid() && t != EndOfFile
      modifies this`index
      ensures Valid() && found == if Type(old(Rest()), 0) == t then Some(old(Rest())[0]) else None
      ensures index == old(index) + (if found.Some? then 1 else 0)
      ensures Rest() == if found.Some? then old(Rest())[1..] else old(Rest())
    {
      if Peek(0) != t { return None; }
      found := Some(tokens[index]);
      Advance();
    }

    /** The parenthesis that closes what was just read. */
    method ParseClosing(e: Expr) returns (r: Outcome)
      requires Valid()
      modifies this`index
      ensures Reads(Close(Parsed(e, old(Rest()))), r) && index >= old(index)
    {
      var close := Expect(RightParen);
      r := if close.Some? then Got(e) else Lost(Syntax);
    }

    method ParseExpr() returns (r: Outcome)
      requires Valid()
      modifies this`index
      ensures Reads(ParseOr(old(Rest())), r) && index >= old(index)
      ensures r.Got? ==> index > old(index)
      decreases |tokens| - index, 10
    {
      ghost var start := Rest();
      r := ParseConjunction();
      if r.Lost? { return; }
      while Peek(0) == KwOr
        invariant Valid() && index > old(index) && r.Got?
        invariant ParseOr(start) == OrTail(r.e, Rest())
        decreases |tokens| - index
      {
        Advance();
        var right := ParseConjunction();
        if right.Lost? { return right; }
        r := Got(Binary("or", r.e, right.e));
      }
    }

    method ParseConjunction() returns (r: Outcome)
      requires Valid()
      modifies this`index
      ensures Reads(ParseAnd(old(Rest())), r) && index >= old(index)
      ensures r.Got? ==> index > old(index)
      decreases |tokens| - index, 9
    {
      ghost var start := Rest();
      r := ParseNegation();
      if r.Lost? { return; }
      while Peek(0) == KwAnd
        invariant Valid() && index > old(index) && r.Got?
        invariant ParseAnd(start) == AndTail(r.e, Rest())
        decreases |tokens| - index
      {
        Advance();
        var right := ParseNegation();
        if right.Lost? { return right; }
        r := Got(Binary("and", r.e, right.e));
      }
    }

    method ParseNegation() returns (r: Outcome)
      requires Valid()
      modifies this`index
      ensures Reads(ParseNot(old(Rest())), r) && index >= old(index)
      ensures r.Got? ==> index > old(index)
      decreases |tokens| - index, 8
    {
      var negated := Match(KwNot);
      if !negated {
        r := ParseCompared();
      } else {
        r := ParseNegation();
        if r.Got? { r := Got(Unary("not", r.e)); }
      }
    }

    method ParseCompared() returns (r: Outcome)
      requires Valid()
      modifies this`index
      ensures Reads(ParseComparison(old(Rest())), r) && index >= old(index)
      ensures r.Got? ==> index > old(index)
      decreases |tokens| - index, 7
    {
      r := ParseSum();
      if r.Lost? { return; }
      if IsComparisonType(Peek(0)) {
        var op := tokens[index].lexeme;
        Advance();
        var right := ParseSum();
        if right.Lost? { return right; }
        r := Got(Binary(op, r.e, right.e));
      }
      r := ParseRest(r.e);
    }

    /** IS [NOT] NULL, or an optional NOT in front of BETWEEN, IN and LIKE. */
    method ParseRest(left: Expr) returns (r: Outcome)
      requires Valid()
      modifies this`index
      ensures Reads(ParseSuffix(left, old(Rest())), r) && index >= old(index)
      decreases |tokens| - index, 6
    {
      var negated := false;
      if Peek(0) == KwIs {
        Advance();
        negated := Match(KwNot);
        var nothing := Expect(KwNull);
        if nothing.None? { return Lost(Syntax); }
        return Got(IsNull(left, negated));
      }
      if Peek(0) == KwNot && (Peek(1) == KwBetween || Peek(1) == KwIn || Peek(1) == KwLike) {
        Advance();
        negated := true;
      }
      r := ParseTest(left, negated);
    }

    method ParseTest(left: Expr, negated: bool) returns (r: Outcome)
      requires Valid()
      modifies this`index
      ensures Reads(ParseMembership(left, negated, old(Rest())), r) && index >= old(index)
      decreases |tokens| - index, 5
    {
      if Peek(0) == KwBetween {
        Advance();
        r := ParseBounds(left, negated);
      } else if Peek(0) == KwIn {
        Advance();
        r := ParseInList(left, negated);
      } else if Peek(0) == KwLike {
        Advance();
        r := ParseSum();
        if r.Got? { r := Got(Binary(if negated then "not like" else "like", left, r.e)); }
      } else {
        r := Got(left);
      }
    }

    method ParseBounds(operand: Expr, negated: bool) returns (r: Outcome)
      requires Valid()
      modifies this`index
      ensures Reads(ParseRange(operand, negated, old(Rest())), r) && index >= old(index)
      decreases |tokens| - index, 5
    {
      var lower := ParseSum();
      if lower.Lost? { return lower; }
      var conjunction := Expect(KwAnd);
      if conjunction.None? { return Lost(Syntax); }
      var upper := ParseSum();
      if upper.Lost? { return upper; }
      r := Got(Between(operand, lower.e, upper.e, negated));
    }

    method ParseInList(operand: Expr, negated: bool) returns (r: Outcome)
      requires Valid()
      modifies this`index
      ensures Reads(ParseInParens(operand, negated, old(Rest())), r) && index >= old(index)
      decreases |tokens| - index, 12
    {
      ghost var start := Rest();
      var open := Match(LeftParen);
      if !open { return Lost(Syntax); }
      assert Type(Rest(), 0) == Type(start, 1);
      if Peek(0) == KwSelect { return Lost(NestedSelect); }
      var options;
      options, r := ParseOptionList();
      if r.Got? { r := ParseClosing(In(operand, options, negated)); }
    }

    /** Options up to the first that no comma follows. */
    method ParseOptionList() returns (options: seq<Expr>, r: Outcome)
      requires Valid()
      modifies this`index
      ensures Valid() && index >= old(index)
      ensures match ParseOptions(old(Rest()))
              case ParsedList(all, after) => r.Got? && options == all && Rest() == after
              case FailedList(error) => r == Lost(error)
      decreases |tokens| - index, 11
    {
      ghost var start := Rest();
      options := [];
      r := Got(Missing);
      var more := true;
      while more
        invariant Valid() && index >= old(index) && r.Got?
        invariant more ==> ParseOptions(start) == Joined(options, ParseOptions(Rest()))
        invariant !more ==> ParseOptions(start) == ParsedList(options, Rest())
        decreases |tokens| - index, more
      {
        ghost var before := options;
        r := ParseExpr();
        if r.Lost? { return; }
        options := options + [r.e];
        more := Match(Comma);
        if more { JoinedTwice(before, r.e, ParseOptions(Rest())); }
      }
    }

    method ParseSum() returns (r: Outcome)
      requires Valid()
      modifies this`index
      ensures Reads(ParseAdditive(old(Rest())), r) && index >= old(index)
      ensures r.Got? ==> index > old(index)
      decreases |tokens| - index, 4
    {
      ghost var start := Rest();
      r := ParseProduct();
      if r.Lost? { return; }
      while IsAdditiveType(Peek(0))
        invariant Valid() && index > old(index) && r.Got?
        invariant ParseAdditive(start) == AdditiveTail(r.e, Rest())
        decreases |tokens| - index
      {
        var op := tokens[index].lexeme;
        Advance();
        var right := ParseProduct();
        if right.Lost? { return right; }
        r := Got(Binary(op, r.e, right.e));
      }
    }

    method ParseProduct() returns (r: Outcome)
      requires Valid()
      modifies this`index
      ensures Reads(ParseMultiplicative(old(Rest())), r) && index >= old(index)
      ensures r.Got? ==> index > old(index)
      decreases |tokens| - index, 3
    {
      ghost var start := Rest();
      r := ParseSigned();
      if r.Lost? { return; }
      while IsMultiplicativeType(Peek(0))
        invariant Valid() && index > old(index) && r.Got?
        invariant ParseMultiplicative(start) == MultiplicativeTail(r.e, Rest())
        decreases |tokens| - index
      {
        var op := tokens[index].lexeme;
        Advance();
        var right := ParseSigned();
        if right.Lost? { return right; }
        r := Got(Binary(op, r.e, right.e));
      }
    }

    method ParseSigned() returns (r: Outcome)
      requires Valid()
      modifies this`index
      ensures Reads(ParseUnary(old(Rest())), r) && index >= old(index)
      ensures r.Got? ==> index > old(index)
      decreases |tokens| - index, 2
    {
      var negative := Match(Minus);
      if !negative {
        r := ParseAtom();
      } else {
        r := ParseSigned();
        if r.Got? { r := Got(Unary("-", r.e)); }
      }
    }

    /** The argument of an aggregate: `*` or an expression. */
    method ParseArgument() returns (star: bool, r: Outcome)
      requires Valid()
      modifies this`index
      ensures Valid() && index >= old(index) && star == (Type(old(Rest()), 0) == Star)
      ensures star ==> r == Got(Missing) && Rest() == old(Rest())[1..]
      ensures !star ==> Reads(ParseOr(old(Rest())), r)
      decreases |tokens| - index, 11
    {
      star := Match(Star);
      r := Got(Missing);
      if !star { r := ParseExpr(); }
    }

    method ParseCall() returns (r: Outcome)
      requires Valid() && IsAggregateCall(Rest())
      modifies this`index
      ensures Reads(ParseAggregate(old(Rest())), r) && index > old(index)
      decreases |tokens| - index, 0
    {
      var kind := AggregateFromName(tokens[index].lexeme).value;
      ghost var start := Rest();
      Advance();
      Advance();
      assert Rest() == start[2..] && Type(Rest(), 0) == Type(start, 2);
      ghost var inner := Rest();
      assert inner != [] ==> inner[1..] == start[3..];
      var star;
      star, r := ParseArgument();
      if r.Got? { r := ParseClosing(Aggregate(kind, star, r.e)); }
    }

    method ParseColumnRef() returns (r: Outcome)
      requires Valid()
      modifies this`index
      ensures Reads(ParseColumn(old(Rest())), r) && index >= old(index)
      ensures r.Got? ==> index > old(index)
    {
      ghost var start := Rest();
      var first := Expect(Identifier);
      if first.None? { return Lost(Syntax); }
      assert Rest() == start[1..] && Type(Rest(), 0) == Type(start, 1);
      var dotted := Match(Dot);
      if !dotted { return Got(Column("", first.value.lexeme)); }
      assert Rest() == start[2..] && Type(Rest(), 0) == Type(start, 2);
      var column := Expect(Identifier);
      assert column.Some? ==> Rest() == start[3..] && column.value == start[2];
      if column.None? { return Lost(Syntax); }
      r := Got(Column(first.value.lexeme, column.value.lexeme));
    }

    method ParseConstant() returns (r: Outcome)
      requires Valid() && Peek(0) in {KwNull, KwTrue, KwFalse, Str, Integer}
      modifies this`index
      ensures Reads(ParsePrimary(old(Rest())), r) && index > old(index)
    {
      var token := tokens[index];
      Advance();
      match token.t
      case KwNull => r := Got(Literal(NullLiteral, 0, ""));
      case KwTrue => r := Got(Literal(BoolLiteral, 0, "true"));
      case KwFalse => r := Got(Literal(BoolLiteral, 0, "false"));
      case Str => r := Got(Literal(StringLiteral, 0, token.lexeme));
      case _ =>
        var n := FromChars(token.lexeme);
        match n {
          case Some(value) => r := Got(Literal(IntLiteral, value, ""));
          case None => r := Lost(IntegerTooLarge);
        }
    }

    method ParseGroup() returns (r: Outcome)
      requires Valid() && Peek(0) == LeftParen
      modifies this`index
      ensures Reads(ParsePrimary(old(Rest())), r) && index > old(index)
      decreases |tokens| - index, 0
    {
      ghost var start := Rest();
      Advance();
      assert Type(Rest(), 0) == Type(start, 1);
      if Peek(0) == KwSelect { return Lost(NestedSelect); }
      r := ParseExpr();
      if r.Got? { r := ParseClosing(r.e); }
    }

    method ParseExists() returns (r: Outcome)
      requires Valid() && Peek(0) == KwExists
      modifies this`index
      ensures Reads(ParsePrimary(old(Rest())), r) && index > old(index)
    {
      ghost var start := Rest();
      Advance();
      assert Type(Rest(), 0) == Type(start, 1) && (Rest() != [] ==> Type(Rest()[1..], 0) == Type(start, 2));
      var open := Match(LeftParen);
      r := Lost(if open && Peek(0) == KwSelect then NestedSelect else Syntax);
    }

    method ParseAtom() returns (r: Outcome)
      requires Valid()
      modifies this`index
      ensures Reads(ParsePrimary(old(Rest())), r) && index >= old(index)
      ensures r.Got? ==> index > old(index)
      decreases |tokens| - index, 1
    {
      var t := Peek(0);
      if t in {KwNull, KwTrue, KwFalse, Str, Integer} {
        r := ParseConstant();
      } else if t == Identifier {
        if Peek(1) == LeftParen && AggregateFromName(tokens[index].lexeme).Some? {
          r := ParseCall();
        } else {
          r := ParseColumnRef();
        }
      } else if t == LeftParen {
        r := ParseGroup();
      } else if t == KwExists {
        r := ParseExists();
      } else {
        r := Lost(Syntax);
      }
    }
  }

  /** Options found so far in front of the others. */
  ghost function Joined(options: seq<Expr>, p: ParseList): ParseList {
    match p
    case FailedList(error) => p
    case ParsedList(others, after) => ParsedList(options + others, after)
  }

  lemma JoinedTwice(options: seq<Expr>, option: Expr, p: ParseList)
    ensures Joined(options, Joined([option], p)) == Joined(options + [option], p)
  {
    if p.ParsedList? { assert options + ([option] + p.options) == (options + [option]) + p.options; }
  }

  lemma {:induction false} LexEnds(sql: string)
    requires Lex(sql).Some?
    ensures var ts := Lex(sql).value; ts != [] && ts[|ts| - 1] == END
    decreases |sql|
  {
    if sql != "" {
      var step := ScanOne(sql);
      if step.Skip? || step.Emit? { LexEnds(step.rest); }
    }
  }

  /** Lexing and parsing one expression; `finished` says that nothing is left over. */
  method ReadText(sql: string) returns (r: Outcome, finished: bool)
    ensures match Lex(sql)
            case None => r == Lost(Syntax) && !finished
            case Some(ts) =>
              match ParseOr(ts)
              case Parsed(e, rest) => r == Got(e) && finished == (Type(rest, 0) == EndOfFile)
              case Failed(error) => r == Lost(error) && !finished
  {
    var tokens := Tokenize(sql);
    if tokens.None? { return Lost(Syntax), false; }
    LexEnds(sql);
    var parser := new Parser(tokens.value);
    r := parser.ParseExpr();
    finished := r.Got? && parser.Peek(0) == EndOfFile;
  }

  /** Reading the text of a printable expression gives the expression back, with all tokens consumed. */
  method PrintAndRead(e: Expr) returns (r: Outcome, finished: bool)
    requires Printable(e)
    ensures r == Got(e) && finished
  {
    PrintThenParse(e);
    r, finished := ReadText(Text(e));
  }
}
