/** White space and comments between tokens: how many there are, and which, makes no difference. */
module Gaps {
  import opened Wrappers
  import opened Lexing
  import PrintParse

  // ----- what may stand between tokens -----

  /** Space, tab, line feed, vertical tab, form feed and carriage return. */
  predicate IsWhite(c: char) {
    c == ' ' || c == '\t' || c == '\n' || c == 11 as char || c == 12 as char || c == '\r'
  }

  predicate IsLineEnd(c: char) { c == '\n' || c == '\r' }

  datatype Piece = White(c: char) | Line(body: string, end: char) | Block(body: string)

  /** A line comment ends with its line, a block comment where it first can. */
  predicate PieceOk(p: Piece) {
    match p
    case White(c) => IsWhite(c)
    case Line(body, end) => IsLineEnd(end) && forall i :: 0 <= i < |body| ==> !IsLineEnd(body[i])
    case Block(body) => forall i :: 0 <= i < |body| - 1 ==> !(body[i] == '*' && body[i + 1] == '/')
  }

  function PieceText(p: Piece): string {
    match p
    case White(c) => [c]
    case Line(body, end) => "--" + (body + [end])
    case Block(body) => "/*" + (body + "*/")
  }

  function GapText(gap: seq<Piece>): string { if gap == [] then "" else PieceText(gap[0]) + GapText(gap[1..]) }

  predicate GapOk(gap: seq<Piece>) { forall i :: 0 <= i < |gap| ==> PieceOk(gap[i]) }

  // ----- gaps are skipped -----

  lemma {:induction false} LineEnds(body: string, end: char, s: string)
    requires PieceOk(Line(body, end))
    ensures AfterLine(body + ([end] + s)) == [end] + s
  {
    var all := body + ([end] + s);
    if body == "" {
      assert all == [end] + s;
    } else {
      assert all[1..] == body[1..] + ([end] + s);
      LineEnds(body[1..], end, s);
    }
  }

  lemma {:induction false} BlockEnds(body: string, s: string)
    requires PieceOk(Block(body))
    ensures AfterBlock(body + ("*/" + s)) == Some(s)
  {
    var all := body + ("*/" + s);
    if body == "" {
      assert all[2..] == s && StartsWith(all, '*', '/');
    } else {
      assert all[1..] == body[1..] + ("*/" + s) && all[0] == body[0];
      assert all[1] == if |body| > 1 then body[1] else '*';
      BlockEnds(body[1..], s);
    }
  }

  lemma WhiteIsSkipped(c: char, s: string)
    requires IsWhite(c)
    ensures Lex([c] + s) == Lex(s)
  {
    var all := [c] + s;
    assert all[0] == c && all[1..] == s;
  }

  lemma LineIsSkipped(body: string, end: char, s: string)
    requires PieceOk(Line(body, end))
    ensures Lex(PieceText(Line(body, end)) + s) == Lex(s)
  {
    var rest := body + ([end] + s);
    var all := PieceText(Line(body, end)) + s;
    var tail := all[1..];
    assert tail[1..] == rest && tail[0] == '-';
    LineEnds(body, end, s);
    assert AfterLine(tail) == AfterLine(rest);
    assert ScanOne(all) == Skip([end] + s);
    WhiteIsSkipped(end, s);
  }

  lemma BlockIsSkipped(body: string, s: string)
    requires PieceOk(Block(body))
    ensures Lex(PieceText(Block(body)) + s) == Lex(s)
  {
    var all := PieceText(Block(body)) + s;
    assert all[2..] == body + ("*/" + s);
    BlockEnds(body, s);
    assert ScanOne(all) == Skip(s);
  }

  /** White space and comments in front of a text do not show. */
  lemma {:induction false} GapIsSkipped(gap: seq<Piece>, s: string)
    requires GapOk(gap)
    ensures Lex(GapText(gap) + s) == Lex(s)
  {
    if gap == [] {
      assert GapText(gap) + s == s;
    } else {
      var more := GapText(gap[1..]) + s;
      assert GapText(gap) + s == PieceText(gap[0]) + more;
      GapIsSkipped(gap[1..], s);
      match gap[0]
      case White(c) => WhiteIsSkipped(c, more);
      case Line(body, end) => LineIsSkipped(body, end, more);
      case Block(body) => BlockIsSkipped(body, more);
    }
  }

  // ----- text before a gap -----

  lemma {:induction false} WordKeeps(a: string, t: string)
    requires t != "" && !IsWordChar(t[0])
    ensures WordLength(a + t) == WordLength(a)
  {
    if a == "" {
      assert a + t == t;
    } else {
      assert (a + t)[1..] == a[1..] + t;
      WordKeeps(a[1..], t);
    }
  }

  lemma {:induction false} DigitsKeep(a: string, t: string)
    requires t != "" && !IsDigit(t[0])
    ensures DigitsLength(a + t) == DigitsLength(a)
  {
    if a == "" {
      assert a + t == t;
    } else {
      assert (a + t)[1..] == a[1..] + t;
      DigitsKeep(a[1..], t);
    }
  }

  lemma {:induction false} LineKeeps(a: string, t: string)
    requires t != "" && (AfterLine(a) == "" ==> IsLineEnd(t[0]))
    ensures AfterLine(a + t) == AfterLine(a) + t
  {
    if a == "" {
      assert a + t == t;
    } else {
      assert (a + t)[1..] == a[1..] + t && (a + t)[0] == a[0];
      if !IsLineEnd(a[0]) { LineKeeps(a[1..], t); }
    }
  }

  lemma {:induction false} BlockKeeps(a: string, t: string)
    requires AfterBlock(a).Some?
    ensures AfterBlock(a + t) == Some(AfterBlock(a).value + t)
  {
    var all := a + t;
    assert all[1..] == a[1..] + t && all[0] == a[0];
    if StartsWith(a, '*', '/') {
      assert all[2..] == a[2..] + t;
    } else {
      assert |a| > 1;
      BlockKeeps(a[1..], t);
    }
  }

  lemma {:induction false} QuotedKeeps(a: string, t: string)
    requires Quoted(a).Some? && t != "" && t[0] != '\''
    ensures Quoted(a + t) == Some((Quoted(a).value.0, Quoted(a).value.1 + t))
  {
    var all := a + t;
    assert all[1..] == a[1..] + t && all[0] == a[0];
    if a[0] != '\'' {
      QuotedKeeps(a[1..], t);
    } else if StartsWith(a, '\'', '\'') {
      assert all[2..] == a[2..] + t;
      QuotedKeeps(a[2..], t);
    } else {
      assert |all| > 1 && all[1] == if |a| > 1 then a[1] else t[0];
    }
  }

  /** The step with more text behind it. */
  function Longer(step: Scan, t: string): Scan {
    match step
    case Skip(rest) => Skip(rest + t)
    case Emit(token, rest) => Emit(token, rest + t)
    case Bad => Bad
  }

  lemma Slices(a: string, t: string, n: nat)
    requires n <= |a|
    ensures (a + t)[n..] == a[n..] + t && (a + t)[..n] == a[..n]
  {
  }

  lemma NameKeeps(a: string, t: string)
    requires t != "" && IsWhite(t[0])
    ensures ScanName(a + t) == Longer(ScanName(a), t)
  {
    WordKeeps(a, t);
    Slices(a, t, WordLength(a));
  }

  lemma NumberLengthKeeps(a: string, t: string)
    requires t != "" && IsWhite(t[0]) && StartsNumber(a)
    ensures StartsNumber(a + t) && NumberLength(a + t) == NumberLength(a)
  {
    Slices(a, t, 1);
    assert (a + t)[0] == a[0];
    if a[0] == '-' { DigitsKeep(a[1..], t); } else { DigitsKeep(a, t); }
  }

  lemma FractionKeeps(a: string, t: string)
    requires t != "" && IsWhite(t[0])
    ensures StartsFraction(a + t) == StartsFraction(a)
  {
    if a != "" {
      assert (a + t)[0] == a[0] && (a + t)[1] == if |a| > 1 then a[1] else t[0];
    } else {
      assert a + t == t;
    }
  }

  lemma NumberKeeps(a: string, t: string)
    requires t != "" && IsWhite(t[0]) && StartsNumber(a)
    ensures StartsNumber(a + t) && ScanNumber(a + t) == Longer(ScanNumber(a), t)
  {
    var n := NumberLength(a);
    NumberLengthKeeps(a, t);
    Slices(a, t, n);
    FractionKeeps(a[n..], t);
  }

  lemma SymbolKeeps(a: string, t: string)
    requires a != "" && t != "" && IsWhite(t[0]) && ScanSymbol(a) != Bad
    ensures ScanSymbol(a + t) == Longer(ScanSymbol(a), t)
  {
    Slices(a, t, 1);
    assert |a| > 1 ==> (a + t)[1] == a[1];
    assert |a| == 1 ==> (a + t)[1] == t[0];
    assert Pair(a + t) == Pair(a);
    if Pair(a) != EndOfFile { Slices(a, t, 2); }
  }

  /** The text stops inside a line comment. */
  predicate OpenLine(s: string) { StartsWith(s, '-', '-') && AfterLine(s[1..]) == "" }

  lemma StartKeeps(a: string, t: string, x: char, y: char)
    requires a != "" && t != "" && y != t[0]
    ensures StartsWith(a + t, x, y) == StartsWith(a, x, y)
  {
    assert |a| > 1 ==> (a + t)[1] == a[1];
    assert |a| == 1 ==> (a + t)[1] == t[0];
  }

  lemma BlankKeeps(a: string, t: string)
    requires IsBlank(a) && t != "" && IsWhite(t[0]) && ScanOne(a) != Bad && (OpenLine(a) ==> IsLineEnd(t[0]))
    ensures ScanOne(a + t) == Longer(ScanOne(a), t)
  {
    Slices(a, t, 1);
    StartKeeps(a, t, '-', '-');
    StartKeeps(a, t, '/', '*');
    if IsSpace(a[0]) {
    } else if StartsWith(a, '-', '-') {
      LineKeeps(a[1..], t);
    } else {
      Slices(a, t, 2);
      BlockKeeps(a[2..], t);
    }
  }

  lemma StepKeeps(a: string, t: string)
    requires a != "" && t != "" && IsWhite(t[0]) && ScanOne(a) != Bad && (OpenLine(a) ==> IsLineEnd(t[0]))
    ensures ScanOne(a + t) == Longer(ScanOne(a), t)
  {
    if IsBlank(a) {
      BlankKeeps(a, t);
    } else {
      StartKeeps(a, t, '-', '-');
      StartKeeps(a, t, '/', '*');
      TokenKeeps(a, t);
    }
  }

  lemma TokenKeeps(a: string, t: string)
    requires a != "" && t != "" && IsWhite(t[0]) && ScanOne(a) != Bad && !IsBlank(a) && !IsBlank(a + t)
    ensures ScanOne(a + t) == Longer(ScanOne(a), t)
  {
    Slices(a, t, 1);
    assert (a + t)[0] == a[0];
    if IsWordStart(a[0]) {
      NameKeeps(a, t);
    } else if StartsNumber(a) {
      NumberKeeps(a, t);
    } else {
      assert StartsNumber(a + t) == StartsNumber(a);
      if a[0] == '\'' { QuotedKeeps(a[1..], t); } else { SymbolKeeps(a, t); }
    }
  }

  /** Somewhere the text stops inside a line comment. */
  predicate EndsOpen(s: string)
    decreases |s|
  {
    s != ""
    && (OpenLine(s)
        || match ScanOne(s)
           case Skip(rest) => EndsOpen(rest)
           case Emit(_, rest) => EndsOpen(rest)
           case Bad => false)
  }

  /** The tokens without the end marker. */
  function Front(tokens: seq<Token>): seq<Token>
    requires tokens != []
  {
    tokens[..|tokens| - 1]
  }

  lemma {:induction false} TokensEnd(a: string)
    requires Lex(a).Some?
    ensures Lex(a).value != []
    decreases |a|
  {
    if a != "" && ScanOne(a).Skip? { TokensEnd(ScanOne(a).rest); }
  }

  /** White space ends whatever token stood before it. */
  lemma {:induction false} WhiteSeparates(a: string, t: string)
    requires Lex(a).Some? && t != "" && IsWhite(t[0]) && (EndsOpen(a) ==> IsLineEnd(t[0]))
    ensures Lex(a).value != [] && Lex(a + t) == Append(Front(Lex(a).value), Lex(t))
    decreases |a|
  {
    TokensEnd(a);
    if a == "" {
      assert a + t == t;
      AppendNothing(Lex(t));
    } else {
      StepKeeps(a, t);
      match ScanOne(a)
      case Skip(rest) => WhiteSeparates(rest, t);
      case Emit(token, rest) =>
        WhiteSeparates(rest, t);
        TokensEnd(rest);
        OneMoreToken(token, Lex(rest).value, Lex(t));
    }
  }

  lemma OneMoreToken(token: Token, tokens: seq<Token>, more: Option<seq<Token>>)
    requires tokens != []
    ensures Prepend(token, Append(Front(tokens), more)) == Append(Front([token] + tokens), more)
  {
    assert Front([token] + tokens) == [token] + Front(tokens);
    if more.Some? { assert [token] + (Front(tokens) + more.value) == ([token] + Front(tokens)) + more.value; }
  }

  /** Between two parts of a text there may be white space and comments of any kind and number, as long as the first is
      white space, and the end of a line after an open line comment: the tokens are those of the parts. */
  lemma GapsDoNotShow(a: string, c: char, gap: seq<Piece>, s: string)
    requires Lex(a).Some? && IsWhite(c) && GapOk(gap) && (EndsOpen(a) ==> IsLineEnd(c))
    ensures Lex(a).value != [] && Lex(a + ([c] + (GapText(gap) + s))) == Append(Front(Lex(a).value), Lex(s))
  {
    var t := [c] + (GapText(gap) + s);
    WhiteSeparates(a, t);
    WhiteIsSkipped(c, GapText(gap) + s);
    GapIsSkipped(gap, s);
  }

  /** Letters are read in either case. */
  lemma CaseDoesNotShow(w: string, u: string, s: string)
    requires w != "" && (forall i :: 0 <= i < |w| ==> IsWordChar(w[i])) && IsWordStart(w[0])
    requires |u| == |w| && forall i :: 0 <= i < |w| ==> u[i] == w[i] || ('a' <= w[i] <= 'z' && u[i] == w[i] - 'a' + 'A')
    requires s == "" || !IsWordChar(s[0])
    ensures Lex(u + s) == Lex(w + s)
  {
    assert Lower(u) == Lower(w);
    PrintParse.LexWord(w, s);
    PrintParse.LexWord(u, s);
  }

  /** A text with every quote doubled. */
  function Doubled(text: string): string {
    if text == "" then "" else (if text[0] == '\'' then "''" else [text[0]]) + Doubled(text[1..])
  }

  lemma {:induction false} DoubledIsRead(text: string, s: string)
    requires s == "" || s[0] != '\''
    ensures Quoted(Doubled(text) + ("'" + s)) == Some((text, s))
  {
    var all := Doubled(text) + ("'" + s);
    if text == "" {
      assert all == "'" + s && all[1..] == s;
    } else {
      var rest := Doubled(text[1..]) + ("'" + s);
      DoubledIsRead(text[1..], s);
      assert [text[0]] + text[1..] == text;
      if text[0] == '\'' {
        assert all == "''" + rest;
        assert all[2..] == rest && StartsWith(all, '\'', '\'');
      } else {
        assert all == [text[0]] + rest;
        assert all[1..] == rest;
      }
    }
  }

  /** Any text can be written between quotes. */
  lemma AnyTextIsRead(text: string, s: string)
    requires s == "" || s[0] != '\''
    ensures Lex("'" + (Doubled(text) + ("'" + s))) == Prepend(Token(Str, text), Lex(s))
  {
    var inner := Doubled(text) + ("'" + s);
    var all := "'" + inner;
    assert all[0] == '\'' && all[1..] == inner;
    DoubledIsRead(text, s);
    assert ScanOne(all) == ScanString(all);
  }
}
