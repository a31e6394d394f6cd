/** Lexing and then parsing a printed expression gives the expression back. */
module PrintParse {
  import opened Wrappers
  import opened Expressions
  import opened Lexing
  import opened Grammar
  import opened Printing

  // ----- lexing one piece in front of more text -----

  lemma LexSpace(s: string)
    ensures Lex(" " + s) == Lex(s)
  {
    var all := " " + s;
    assert all[0] == ' ' && all[1..] == s;
  }

  lemma LexPunctuation(c: char, s: string)
    requires c == '(' || c == ')' || c == ',' || c == '.' || c == '*'
    ensures Lex([c] + s) == Prepend(Token(Punctuation(c), [c]), Lex(s))
  {
    var all := [c] + s;
    assert all[0] == c && all[1..] == s && all[..1] == [c];
    assert ScanOne(all) == ScanSymbol(all) == Emit(Token(Punctuation(c), [c]), s);
  }

  lemma LexSymbol(op: string, s: string)
    requires IsSymbol(op) && s != "" && s[0] == ' '
    ensures Lex(op + s) == Prepend(SymbolToken(op), Lex(s))
  {
    assert |op| == 1;
    var all := op + s;
    assert all[0] == op[0] && all[1] == ' ' && all[1..] == s && all[..1] == op;
    assert ScanOne(all) == ScanSymbol(all) == Emit(SymbolToken(op), s);
  }

  lemma LexPair(op: string, s: string)
    requires IsPair(op)
    ensures Lex(op + s) == Prepend(SymbolToken(op), Lex(s))
  {
    assert |op| == 2;
    var all := op + s;
    assert all[0] == op[0] && all[1] == op[1] && all[2..] == s && all[..2] == op;
    assert Pair(all) == Pair(op) != EndOfFile;
    assert ScanOne(all) == ScanSymbol(all) == Emit(SymbolToken(op), s);
  }

  predicate IsWord(w: string) { w != "" && IsWordStart(w[0]) && forall i :: 0 <= i < |w| ==> IsWordChar(w[i]) }

  predicate EndsWord(s: string) { s == "" || !IsWordChar(s[0]) }

  lemma {:induction false} WordLengthIs(w: string, s: string)
    requires (forall i :: 0 <= i < |w| ==> IsWordChar(w[i])) && EndsWord(s)
    ensures WordLength(w + s) == |w|
  {
    if w == "" {
      assert w + s == s;
    } else {
      assert (w + s)[1..] == w[1..] + s;
      WordLengthIs(w[1..], s);
    }
  }

  lemma LexWord(w: string, s: string)
    requires IsWord(w) && EndsWord(s)
    ensures Lex(w + s) == Prepend(Word(Lower(w)), Lex(s))
  {
    var all := w + s;
    WordLengthIs(w, s);
    assert all[..|w|] == w && all[|w|..] == s && all[0] == w[0];
    assert ScanOne(all) == ScanName(all);
  }

  lemma {:induction false} DigitsLengthIs(w: string, s: string)
    requires (forall i :: 0 <= i < |w| ==> IsDigit(w[i])) && (s == "" || !IsDigit(s[0]))
    ensures DigitsLength(w + s) == |w|
  {
    if w == "" {
      assert w + s == s;
    } else {
      assert (w + s)[1..] == w[1..] + s;
      DigitsLengthIs(w[1..], s);
    }
  }

  lemma NegativeLengthIs(n: nat, s: string)
    requires s == "" || !IsDigit(s[0])
    ensures StartsNumber("-" + Numeral(n) + s) && NumberLength("-" + Numeral(n) + s) == 1 + |Numeral(n)|
  {
    var digits := Numeral(n);
    var all := "-" + digits + s;
    NumeralIsRead(n);
    DigitsLengthIs(digits, s);
    assert all[0] == '-' && all[1..] == digits + s && all[1] == digits[0];
  }

  lemma NumberLengthIs(n: int, s: string)
    requires s == "" || !IsDigit(s[0])
    ensures StartsNumber(ToString(n) + s) && NumberLength(ToString(n) + s) == |ToString(n)|
  {
    if n < 0 {
      NegativeLengthIs(-n, s);
    } else {
      NumeralIsRead(n);
      DigitsLengthIs(Numeral(n), s);
      assert (ToString(n) + s)[0] == Numeral(n)[0];
    }
  }

  lemma LexNumber(n: int, s: string)
    requires s == "" || (!IsDigit(s[0]) && s[0] != '.')
    ensures Lex(ToString(n) + s) == Prepend(Token(Integer, ToString(n)), Lex(s))
  {
    NumberLengthIs(n, s);
    var w := ToString(n);
    var all := w + s;
    assert all[..|w|] == w && all[|w|..] == s;
    assert ScanNumber(all) == Emit(Token(Integer, w), s);
    if |all| >= 2 { assert !StartsWith(all, '-', '-') && !StartsWith(all, '/', '*'); }
    assert ScanOne(all) == ScanNumber(all);
  }

  lemma {:induction false} QuotedIs(text: string, s: string)
    requires '\'' !in text && (s == "" || s[0] != '\'')
    ensures Quoted(text + ("'" + s)) == Some((text, s))
  {
    var all := text + ("'" + s);
    if text == "" {
      assert all == "'" + s && all[1..] == s;
    } else {
      assert all[0] == text[0] && all[1..] == text[1..] + ("'" + s);
      QuotedIs(text[1..], s);
      assert [text[0]] + text[1..] == text;
    }
  }

  lemma LexString(text: string, s: string)
    requires '\'' !in text && (s == "" || s[0] != '\'')
    ensures Lex("'" + (text + ("'" + s))) == Prepend(Token(Str, text), Lex(s))
  {
    var inner := text + ("'" + s);
    var all := "'" + inner;
    assert all[0] == '\'' && all[1..] == inner;
    QuotedIs(text, s);
    assert ScanOne(all) == ScanString(all);
  }

  // ----- the keywords that are printed -----

  lemma LowerIs(w: string, u: string)
    requires |w| == |u| && forall i :: 0 <= i < |w| ==> u[i] == LowerChar(w[i])
    ensures Lower(w) == u
  {
  }

  lemma KeywordsAreWords()
    ensures IsWord("and") && Lower("and") == "and"
    ensures IsWord("or") && Lower("or") == "or"
    ensures IsWord("not") && Lower("not") == "not"
    ensures IsWord("is") && Lower("is") == "is"
    ensures IsWord("in") && Lower("in") == "in"
    ensures IsWord("like") && Lower("like") == "like"
    ensures IsWord("between") && Lower("between") == "between"
  {
  }

  lemma ConstantsAreWords()
    ensures IsWord("null") && Lower("null") == "null"
    ensures IsWord("NULL") && Lower("NULL") == "null"
    ensures IsWord("true") && Lower("true") == "true"
    ensures IsWord("false") && Lower("false") == "false"
  {
    LowerIs("NULL", "null");
  }

  lemma AggregatesAreWords(kind: AggregateKind)
    ensures IsWord(AggregateName(kind)) && Lower(AggregateName(kind)) == AggregateName(kind)
  {
  }

  lemma AggregatesAreFree(kind: AggregateKind)
    ensures KeywordType(AggregateName(kind)) == Identifier
  {
  }

  lemma AggregatesAreNames(kind: AggregateKind)
    ensures IsName(AggregateName(kind))
  {
    AggregatesAreWords(kind);
    AggregatesAreFree(kind);
  }

  // ----- the printed text, piece by piece -----

  function NotThen(negated: bool, s: string): string { if negated then "not" + (" " + s) else s }

  /** The text of an expression in front of more text. */
  function TextThen(e: Expr, rest: string): string {
    match e
    case Column(tableName, name) => if tableName == "" then name + rest else tableName + ("." + (name + rest))
    case Literal(kind, integer, text) =>
      (match kind
       case StringLiteral => "'" + (text + ("'" + rest))
       case _ => LiteralText(kind, integer, text) + rest)
    case Binary(op, left, right) => "(" + TextThen(left, " " + (op + (" " + TextThen(right, ")" + rest))))
    case Unary(op, operand) => "(" + (op + (" " + TextThen(operand, ")" + rest)))
    case IsNull(operand, negated) =>
      "(" + TextThen(operand, " " + ("is" + (" " + NotThen(negated, "null" + (")" + rest)))))
    case Between(operand, lower, upper, negated) =>
      var bounds := TextThen(lower, " " + ("and" + (" " + TextThen(upper, ")" + rest))));
      "(" + TextThen(operand, " " + NotThen(negated, "between" + (" " + bounds)))
    case In(operand, options, negated) =>
      "(" + TextThen(operand, " " + NotThen(negated, "in" + (" " + ("(" + OptionsThen(options, ")" + (")" + rest))))))
    case Aggregate(kind, star, argument) =>
      AggregateName(kind) + ("(" + (if star then "*" + (")" + rest) else TextThen(argument, ")" + rest)))
    case _ => Text(e) + rest
  }

  function OptionsThen(options: seq<Expr>, rest: string): string {
    if options == [] then rest
    else TextThen(options[0], if |options| == 1 then rest else "," + (" " + OptionsThen(options[1..], rest)))
  }

  lemma Assoc(a: string, b: string, c: string)
    ensures (a + b) + c == a + (b + c)
  {
  }

  lemma Flatten4(a: string, b: string, c: string, d: string)
    ensures a + b + c + d == a + (b + (c + d))
  {
    Assoc(a + b, c, d);
    Assoc(a, b, c + d);
  }

  lemma Flatten6(a: string, b: string, c: string, d: string, e: string, f: string)
    ensures a + b + c + d + e + f == a + (b + (c + (d + (e + f))))
  {
    Assoc(a + b + c + d, e, f);
    Flatten4(a + b, c, d, e + f);
    Assoc(a, b, c + (d + (e + f)));
  }

  lemma Flatten8(a: string, b: string, c: string, d: string, e: string, f: string, g: string, h: string)
    ensures a + b + c + d + e + f + g + h == a + (b + (c + (d + (e + (f + (g + h))))))
  {
    Assoc(a + b + c + d + e + f, g, h);
    Flatten6(a + b, c, d, e, f, g + h);
    Assoc(a, b, c + (d + (e + (f + (g + h)))));
  }

  lemma {:induction false} TextThenIs(e: Expr, rest: string)
    ensures TextThen(e, rest) == Text(e) + rest
    decreases e, 2
  {
    match e
    case Binary(op, left, right) =>
      TextThenIs(right, ")" + rest);
      TextThenIs(left, " " + (op + (" " + TextThen(right, ")" + rest))));
      Flatten8("(", Text(left), " ", op, " ", Text(right), ")", rest);
    case Unary(op, operand) =>
      TextThenIs(operand, ")" + rest);
      Flatten6("(", op, " ", Text(operand), ")", rest);
    case IsNull(_, _) =>
      IsNullThenIs(e, rest);
    case Between(_, _, _, _) =>
      BetweenThenIs(e, rest);
    case In(_, _, _) =>
      InThenIs(e, rest);
    case Aggregate(kind, star, argument) =>
      if star {
        Flatten4(AggregateName(kind) + "(", "*", ")", rest);
        Assoc(AggregateName(kind), "(", "*" + (")" + rest));
      } else {
        TextThenIs(argument, ")" + rest);
        Flatten4(AggregateName(kind) + "(", Text(argument), ")", rest);
        Assoc(AggregateName(kind), "(", Text(argument) + (")" + rest));
      }
    case Column(tableName, name) =>
      Flatten4(tableName, ".", name, rest);
    case Literal(_, _, text) =>
      Flatten4("'", text, "'", rest);
    case _ =>
  }

  lemma {:induction false} IsNullThenIs(e: Expr, rest: string)
    requires e.IsNull?
    ensures TextThen(e, rest) == Text(e) + rest
    decreases e, 1
  {
    var IsNull(operand, negated) := e;
    var tail := if negated then " is not null)" else " is null)";
    var spelled := " " + ("is" + (" " + NotThen(negated, "null" + (")" + rest))));
    assert spelled == tail + rest;
    TextThenIs(operand, spelled);
    Flatten4("(", Text(operand), tail, rest);
  }

  lemma BetweenIsSpelled(negated: bool, low: string)
    ensures NotThen(negated, "between" + (" " + low)) == (if negated then "not between " else "between ") + low
  {
  }

  lemma AndIsSpelled(high: string)
    ensures " " + ("and" + (" " + high)) == " and " + high
  {
  }

  lemma Flatten10(a: string, b: string, c: string, d: string, e: string, f: string, g: string, h: string, i: string)
    ensures a + b + c + d + e + f + g + h + i == a + (b + (c + (d + (e + (f + (g + (h + i)))))))
  {
    Assoc(a + b + c + d + e + f + g, h, i);
    Flatten8(a, b, c, d, e, f, g, h + i);
  }

  lemma {:induction false} BetweenThenIs(e: Expr, rest: string)
    requires e.Between?
    ensures TextThen(e, rest) == Text(e) + rest
    decreases e, 1
  {
    var Between(operand, lower, upper, negated) := e;
    var end := ")" + rest;
    var word := if negated then "not between " else "between ";
    TextThenIs(upper, end);
    var high := Text(upper) + end;
    AndIsSpelled(high);
    TextThenIs(lower, " and " + high);
    var low := Text(lower) + (" and " + high);
    BetweenIsSpelled(negated, low);
    TextThenIs(operand, " " + (word + low));
    Flatten10("(", Text(operand), " ", word, Text(lower), " and ", Text(upper), ")", rest);
  }

  lemma InIsSpelled(negated: bool, list: string)
    ensures NotThen(negated, "in" + (" " + ("(" + list))) == (if negated then "not in (" else "in (") + list
  {
  }

  lemma {:induction false} InThenIs(e: Expr, rest: string)
    requires e.In?
    ensures TextThen(e, rest) == Text(e) + rest
    decreases e, 1
  {
    var In(operand, options, negated) := e;
    var end := ")" + (")" + rest);
    OptionsThenIs(e, 0, end);
    assert options[0..] == options;
    var list := OptionsThen(options, end);
    var word := if negated then "not in (" else "in (";
    InIsSpelled(negated, list);
    TextThenIs(operand, " " + (word + list));
    assert end == "))" + rest;
    Flatten6("(" + Text(operand), " ", word, OptionsText(options), "))", rest);
    Assoc("(", Text(operand), " " + (word + list));
  }

  lemma {:induction false} OptionsThenIs(e: Expr, k: nat, rest: string)
    requires e.In? && k <= |e.options|
    ensures OptionsThen(e.options[k..], rest) == OptionsText(e.options[k..]) + rest
    decreases e, 0, |e.options| - k
  {
    var options := e.options[k..];
    if options == [] {
      assert "" + rest == rest;
    } else {
      var m := k + 1;
      assert options[1..] == e.options[m..];
      OptionsThenIs(e, m, rest);
      TextThenIs(options[0], if |options| == 1 then rest else "," + (" " + OptionsThen(options[1..], rest)));
      assert ", " == "," + " ";
    }
  }

  // ----- lexing a printed expression -----

  /** What may stand behind an expression in printed text. */
  predicate Delimited(rest: string) { rest == "" || rest[0] == ' ' || rest[0] == ')' || rest[0] == ',' }

  ghost predicate Asked(k: nat) { true }

  /** `Lex(s) == Some(ts)`, kept from being unfolded where it is only passed on. */
  ghost predicate LexesTo(s: string,
                          ts: seq<Token>) { forall k: nat {:trigger Asked(k)} :: Asked(k) ==> Lex(s) == Some(ts) }

  lemma LexesToMeans(s: string, ts: seq<Token>)
    ensures LexesTo(s, ts) <==> Lex(s) == Some(ts)
  {
    assert Asked(0);
  }

  lemma Passes(s: string, more: string, token: Token, ts: seq<Token>)
    requires LexesTo(s, ts) && Lex(more) == Prepend(token, Lex(s))
    ensures LexesTo(more, [token] + ts)
  {
    LexesToMeans(s, ts);
    LexesToMeans(more, [token] + ts);
  }

  lemma SpaceIsLexed(s: string, ts: seq<Token>)
    requires LexesTo(s, ts)
    ensures LexesTo(" " + s, ts)
  {
    LexSpace(s);
    LexesToMeans(s, ts);
    LexesToMeans(" " + s, ts);
  }

  lemma PunctuationIsLexed(c: char, s: string, ts: seq<Token>)
    requires LexesTo(s, ts) && (c == '(' || c == ')' || c == ',' || c == '.' || c == '*')
    ensures LexesTo([c] + s, [Token(Punctuation(c), [c])] + ts)
  {
    LexPunctuation(c, s);
    Passes(s, [c] + s, Token(Punctuation(c), [c]), ts);
  }

  lemma WordIsLexed(w: string, s: string, ts: seq<Token>)
    requires LexesTo(s, ts) && IsWord(w) && EndsWord(s)
    ensures LexesTo(w + s, [Word(Lower(w))] + ts)
  {
    LexWord(w, s);
    Passes(s, w + s, Word(Lower(w)), ts);
  }

  lemma SymbolIsLexed(op: string, s: string, ts: seq<Token>)
    requires LexesTo(s, ts) && (IsPair(op) || IsSymbol(op)) && s != "" && s[0] == ' '
    ensures LexesTo(op + s, [SymbolToken(op)] + ts)
  {
    if IsPair(op) { LexPair(op, s); } else { LexSymbol(op, s); }
    Passes(s, op + s, SymbolToken(op), ts);
  }

  lemma WordOperatorIsLexed(op: string, s: string, ts: seq<Token>)
    requires op == "and" || op == "or" || op == "like"
    requires s != "" && s[0] == ' ' && LexesTo(s, ts)
    ensures LexesTo(op + s, OperatorTokens(op) + ts)
  {
    KeywordsAreWords();
    WordIsLexed(op, s, ts);
  }

  lemma OperatorIsLexed(op: string, s: string, ts: seq<Token>)
    requires IsOperator(op) && s != "" && s[0] == ' ' && LexesTo(s, ts)
    ensures LexesTo(op + s, OperatorTokens(op) + ts)
  {
    if op == "not like" {
      WordOperatorIsLexed("like", s, ts);
      NotIsLexed(true, "like" + s, [Word("like")] + ts);
      assert op + s == NotThen(true, "like" + s);
      assert NotTokens(true) + ([Word("like")] + ts) == OperatorTokens(op) + ts;
    } else if IsWordOperator(op) {
      WordOperatorIsLexed(op, s, ts);
    } else {
      SymbolClass(op);
      SymbolIsLexed(op, s, ts);
    }
  }

  lemma NotIsLexed(negated: bool, s: string, ts: seq<Token>)
    requires LexesTo(s, ts)
    ensures LexesTo(NotThen(negated, s), NotTokens(negated) + ts)
  {
    if negated {
      KeywordsAreWords();
      KeywordIsLexed("not", s, ts);
    } else {
      assert [] + ts == ts;
    }
  }

  lemma CloseIsLexed(rest: string, ts: seq<Token>)
    requires LexesTo(rest, ts)
    ensures LexesTo(")" + rest, [RP] + ts) && Delimited(")" + rest)
  {
    PunctuationIsLexed(')', rest, ts);
  }

  lemma OpenIsLexed(s: string, ts: seq<Token>)
    requires LexesTo(s, ts)
    ensures LexesTo("(" + s, [LP] + ts)
  {
    PunctuationIsLexed('(', s, ts);
  }

  lemma NameIsLexed(name: string, rest: string, ts: seq<Token>)
    requires IsName(name) && EndsWord(rest) && LexesTo(rest, ts)
    ensures LexesTo(name + rest, [Token(Identifier, name)] + ts)
  {
    WordIsLexed(name, rest, ts);
  }

  lemma QualifiedIsLexed(tableName: string, name: string, rest: string, ts: seq<Token>)
    requires IsName(tableName) && IsName(name) && EndsWord(rest) && LexesTo(rest, ts)
    ensures LexesTo(tableName + ("." + (name + rest)),
                    [Token(Identifier, tableName), Token(Dot, "."), Token(Identifier, name)] + ts)
  {
    var last := [Token(Identifier, name)] + ts;
    NameIsLexed(name, rest, ts);
    PunctuationIsLexed('.', name + rest, last);
    NameIsLexed(tableName, "." + (name + rest), [Token(Dot, ".")] + last);
    assert [Token(Identifier, tableName)] + ([Token(Dot, ".")] + last)
           == [Token(Identifier, tableName), Token(Dot, "."), Token(Identifier, name)] + ts;
  }

  lemma ColumnIsLexed(tableName: string, name: string, rest: string, ts: seq<Token>)
    requires (tableName == "" || IsName(tableName)) && IsName(name) && Delimited(rest) && LexesTo(rest, ts)
    ensures LexesTo(TextThen(Column(tableName, name), rest), Write(Column(tableName, name), ts))
  {
    if tableName == "" { NameIsLexed(name, rest, ts); } else { QualifiedIsLexed(tableName, name, rest, ts); }
  }

  lemma NumberIsLexed(n: int, rest: string, ts: seq<Token>)
    requires Delimited(rest) && LexesTo(rest, ts)
    ensures LexesTo(ToString(n) + rest, [Token(Integer, ToString(n))] + ts)
  {
    LexNumber(n, rest);
    Passes(rest, ToString(n) + rest, Token(Integer, ToString(n)), ts);
  }

  lemma StringIsLexed(text: string, rest: string, ts: seq<Token>)
    requires '\'' !in text && Delimited(rest) && LexesTo(rest, ts)
    ensures LexesTo("'" + (text + ("'" + rest)), [Token(Str, text)] + ts)
  {
    LexString(text, rest);
    Passes(rest, "'" + (text + ("'" + rest)), Token(Str, text), ts);
  }

  lemma ConstantIsLexed(w: string, rest: string, ts: seq<Token>)
    requires (w == "NULL" || w == "true" || w == "false") && Delimited(rest) && LexesTo(rest, ts)
    ensures w == "NULL" ==> LexesTo(w + rest, [Token(KwNull, "null")] + ts)
    ensures w == "true" ==> LexesTo(w + rest, [Token(KwTrue, w)] + ts)
    ensures w == "false" ==> LexesTo(w + rest, [Token(KwFalse, w)] + ts)
  {
    ConstantsAreWords();
    WordIsLexed(w, rest, ts);
  }

  lemma LiteralIsLexed(kind: LiteralKind, integer: int, text: string, rest: string, ts: seq<Token>)
    requires IsCanonical(kind, integer, text) && Delimited(rest) && LexesTo(rest, ts)
    ensures LexesTo(TextThen(Literal(kind, integer, text), rest), [LiteralToken(kind, integer, text)] + ts)
  {
    match kind
    case IntLiteral => NumberIsLexed(integer, rest, ts);
    case StringLiteral => StringIsLexed(text, rest, ts);
    case NullLiteral => ConstantIsLexed("NULL", rest, ts);
    case BoolLiteral => ConstantIsLexed(text, rest, ts);
  }

  lemma UnaryIsLexed(op: string, s: string, ts: seq<Token>)
    requires (op == "not" || op == "-") && LexesTo(s, ts)
    ensures LexesTo("(" + (op + (" " + s)), [LP, UnaryToken(op)] + ts)
  {
    if op == "not" {
      NotIsLexed(true, s, ts);
    } else {
      SpaceIsLexed(s, ts);
      SymbolIsLexed("-", " " + s, ts);
    }
    assert [LP] + ([UnaryToken(op)] + ts) == [LP, UnaryToken(op)] + ts;
    OpenIsLexed(op + (" " + s), [UnaryToken(op)] + ts);
  }

  lemma KeywordIsLexed(w: string, s: string, ts: seq<Token>)
    requires IsWord(w) && Lower(w) == w && LexesTo(s, ts)
    ensures LexesTo(w + (" " + s), [Word(w)] + ts)
  {
    SpaceIsLexed(s, ts);
    WordIsLexed(w, " " + s, ts);
  }

  lemma IsNullIsLexed(negated: bool, rest: string, ts: seq<Token>)
    requires LexesTo(rest, ts)
    ensures LexesTo(" " + ("is" + (" " + NotThen(negated, "null" + (")" + rest)))),
                    [Token(KwIs, "is")] + (NotTokens(negated) + ([Token(KwNull, "null"), RP] + ts)))
  {
    KeywordsAreWords();
    ConstantsAreWords();
    var last, tokens := "null" + (")" + rest), [Token(KwNull, "null"), RP] + ts;
    CloseIsLexed(rest, ts);
    WordIsLexed("null", ")" + rest, [RP] + ts);
    assert [Word("null")] + ([RP] + ts) == tokens;
    NotIsLexed(negated, last, tokens);
    KeywordIsLexed("is", NotThen(negated, last), NotTokens(negated) + tokens);
    SpaceIsLexed("is" + (" " + NotThen(negated, last)), [Token(KwIs, "is")] + (NotTokens(negated) + tokens));
  }

  /** The text of a printable expression lexes to the tokens written for it. */
  lemma {:induction false} TextIsLexed(e: Expr, rest: string, ts: seq<Token>)
    requires Printable(e) && Delimited(rest) && LexesTo(rest, ts)
    ensures LexesTo(TextThen(e, rest), Write(e, ts))
    decreases e, 2
  {
    match e
    case Column(tableName, name) =>
      ColumnIsLexed(tableName, name, rest, ts);
    case Literal(kind, integer, text) =>
      LiteralIsLexed(kind, integer, text, rest, ts);
    case Binary(_, _, _) =>
      BinaryTextIsLexed(e, rest, ts);
    case Unary(op, operand) =>
      CloseIsLexed(rest, ts);
      TextIsLexed(operand, ")" + rest, [RP] + ts);
      UnaryIsLexed(op, TextThen(operand, ")" + rest), Write(operand, [RP] + ts));
    case IsNull(operand, negated) =>
      IsNullIsLexed(negated, rest, ts);
      var after := [Token(KwIs, "is")] + (NotTokens(negated) + ([Token(KwNull, "null"), RP] + ts));
      var s := " " + ("is" + (" " + NotThen(negated, "null" + (")" + rest))));
      TextIsLexed(operand, s, after);
      OpenIsLexed(TextThen(operand, s), Write(operand, after));
    case Between(_, _, _, _) =>
      BetweenTextIsLexed(e, rest, ts);
    case In(_, _, _) =>
      InTextIsLexed(e, rest, ts);
    case Aggregate(_, _, _) =>
      AggregateTextIsLexed(e, rest, ts);
    case _ =>
  }

  lemma {:induction false} BinaryTextIsLexed(e: Expr, rest: string, ts: seq<Token>)
    requires e.Binary? && Printable(e) && Delimited(rest) && LexesTo(rest, ts)
    ensures LexesTo(TextThen(e, rest), Write(e, ts))
    decreases e, 1
  {
    var Binary(op, left, right) := e;
    CloseIsLexed(rest, ts);
    TextIsLexed(right, ")" + rest, [RP] + ts);
    var s, more := TextThen(right, ")" + rest), Write(right, [RP] + ts);
    SpaceIsLexed(s, more);
    OperatorIsLexed(op, " " + s, more);
    SpaceIsLexed(op + (" " + s), OperatorTokens(op) + more);
    TextIsLexed(left, " " + (op + (" " + s)), OperatorTokens(op) + more);
    OpenIsLexed(TextThen(left, " " + (op + (" " + s))), Write(left, OperatorTokens(op) + more));
  }

  lemma {:induction false} BetweenTextIsLexed(e: Expr, rest: string, ts: seq<Token>)
    requires e.Between? && Printable(e) && Delimited(rest) && LexesTo(rest, ts)
    ensures LexesTo(TextThen(e, rest), Write(e, ts))
    decreases e, 1
  {
    var Between(operand, lower, upper, negated) := e;
    KeywordsAreWords();
    CloseIsLexed(rest, ts);
    TextIsLexed(upper, ")" + rest, [RP] + ts);
    var high, highs := TextThen(upper, ")" + rest), Write(upper, [RP] + ts);
    KeywordIsLexed("and", high, highs);
    SpaceIsLexed("and" + (" " + high), [Token(KwAnd, "and")] + highs);
    var both, boths := " " + ("and" + (" " + high)), [Token(KwAnd, "and")] + highs;
    TextIsLexed(lower, both, boths);
    var low, lows := TextThen(lower, both), Write(lower, boths);
    KeywordIsLexed("between", low, lows);
    var test, tests := "between" + (" " + low), [Token(KwBetween, "between")] + lows;
    NotIsLexed(negated, test, tests);
    SpaceIsLexed(NotThen(negated, test), NotTokens(negated) + tests);
    TextIsLexed(operand, " " + NotThen(negated, test), NotTokens(negated) + tests);
    OpenIsLexed(TextThen(operand, " " + NotThen(negated, test)), Write(operand, NotTokens(negated) + tests));
  }

  lemma InListIsLexed(negated: bool, list: string, lists: seq<Token>)
    requires LexesTo(list, lists)
    ensures LexesTo(" " + NotThen(negated, "in" + (" " + ("(" + list))),
                    NotTokens(negated) + ([Token(KwIn, "in"), LP] + lists))
  {
    KeywordsAreWords();
    OpenIsLexed(list, lists);
    KeywordIsLexed("in", "(" + list, [LP] + lists);
    var test, tests := "in" + (" " + ("(" + list)), [Token(KwIn, "in"), LP] + lists;
    assert [Word("in")] + ([LP] + lists) == tests;
    NotIsLexed(negated, test, tests);
    SpaceIsLexed(NotThen(negated, test), NotTokens(negated) + tests);
  }

  lemma {:induction false} InTextIsLexed(e: Expr, rest: string, ts: seq<Token>)
    requires e.In? && Printable(e) && Delimited(rest) && LexesTo(rest, ts)
    ensures LexesTo(TextThen(e, rest), Write(e, ts))
    decreases e, 1
  {
    var In(operand, options, negated) := e;
    CloseIsLexed(rest, ts);
    CloseIsLexed(")" + rest, [RP] + ts);
    var end, ends := ")" + (")" + rest), [RP, RP] + ts;
    assert [RP] + ([RP] + ts) == ends;
    assert options[0..] == options;
    OptionsTextIsLexed(e, 0, end, ends);
    var list, lists := OptionsThen(options, end), WriteOptions(options, ends);
    InListIsLexed(negated, list, lists);
    var test, tests := "in" + (" " + ("(" + list)), [Token(KwIn, "in"), LP] + lists;
    TextIsLexed(operand, " " + NotThen(negated, test), NotTokens(negated) + tests);
    OpenIsLexed(TextThen(operand, " " + NotThen(negated, test)), Write(operand, NotTokens(negated) + tests));
  }

  lemma {:induction false} OptionsTextIsLexed(e: Expr, k: nat, rest: string, ts: seq<Token>)
    requires e.In? && Printable(e) && k < |e.options| && Delimited(rest) && LexesTo(rest, ts)
    ensures LexesTo(OptionsThen(e.options[k..], rest), WriteOptions(e.options[k..], ts))
    decreases e, 0, |e.options| - k
  {
    var options := e.options[k..];
    if |options| == 1 {
      TextIsLexed(options[0], rest, ts);
    } else {
      var m := k + 1;
      assert options[1..] == e.options[m..];
      OptionsTextIsLexed(e, m, rest, ts);
      var others, tokens := OptionsThen(options[1..], rest), WriteOptions(options[1..], ts);
      SpaceIsLexed(others, tokens);
      PunctuationIsLexed(',', " " + others, tokens);
      TextIsLexed(options[0], "," + (" " + others), [COMMA] + tokens);
    }
  }

  lemma CallOfIsLexed(name: string, inner: string, tokens: seq<Token>)
    requires IsName(name) && LexesTo(inner, tokens)
    ensures LexesTo(name + ("(" + inner), [Token(Identifier, name), LP] + tokens)
  {
    OpenIsLexed(inner, tokens);
    NameIsLexed(name, "(" + inner, [LP] + tokens);
    assert [Token(Identifier, name)] + ([LP] + tokens) == [Token(Identifier, name), LP] + tokens;
  }

  lemma CallIsLexed(kind: AggregateKind, inner: string, tokens: seq<Token>)
    requires LexesTo(inner, tokens)
    ensures LexesTo(AggregateName(kind) + ("(" + inner), [Token(Identifier, AggregateName(kind)), LP] + tokens)
  {
    var name := AggregateName(kind);
    AggregatesAreNames(kind);
    CallOfIsLexed(name, inner, tokens);
  }

  lemma {:induction false} AggregateTextIsLexed(e: Expr, rest: string, ts: seq<Token>)
    requires e.Aggregate? && Printable(e) && Delimited(rest) && LexesTo(rest, ts)
    ensures LexesTo(TextThen(e, rest), Write(e, ts))
    decreases e, 1
  {
    var Aggregate(kind, star, argument) := e;
    CloseIsLexed(rest, ts);
    if star {
      PunctuationIsLexed('*', ")" + rest, [RP] + ts);
      assert [Token(Star, "*")] + ([RP] + ts) == [Token(Star, "*"), RP] + ts;
      CallIsLexed(kind, "*" + (")" + rest), [Token(Star, "*"), RP] + ts);
    } else {
      TextIsLexed(argument, ")" + rest, [RP] + ts);
      CallIsLexed(kind, TextThen(argument, ")" + rest), Write(argument, [RP] + ts));
    }
  }

  /** Printing, lexing and parsing a printable expression gives it back, with nothing but the end marker
      left over. */
  lemma PrintThenParse(e: Expr)
    requires Printable(e)
    ensures Lex(Text(e)).Some? && ParseOr(Lex(Text(e)).value) == Parsed(e, [END])
  {
    TextThenIs(e, "");
    assert Text(e) + "" == Text(e);
    LexesToMeans("", [END]);
    TextIsLexed(e, "", [END]);
    LexesToMeans(Text(e), Write(e, [END]));
    WrittenIsParsed(e, [END]);
    OperandIsWhole(Write(e, [END]), e, [END]);
  }

  /** So no two printable expressions print alike. */
  lemma PrintIsInjective(a: Expr, b: Expr)
    requires Printable(a) && Printable(b) && Text(a) == Text(b)
    ensures a == b
  {
    PrintThenParse(a);
    PrintThenParse(b);
  }
}
