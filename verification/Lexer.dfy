/** The lexer: from SQL text to tokens. */
module Lexing {
  import opened Wrappers

  /** `Reserved` stands for every keyword that no expression uses. */
  datatype TokenType =
    | Identifier | Integer | Str | KwTrue | KwFalse | KwNull
    | Comma | Dot | LeftParen | RightParen | Star | Semicolon
    | Equal | NotEqual | Greater | GreaterEqual | Less | LessEqual
    | Plus | Minus | Slash
    | KwAnd | KwOr | KwNot | KwIs | KwBetween | KwIn | KwLike | KwExists | KwSelect
    | Reserved
    | EndOfFile

  datatype Token = Token(t: TokenType, lexeme: string)

  const END := Token(EndOfFile, "")

  // ----- characters -----

  predicate IsSpace(c: char) { c == ' ' || '\t' <= c <= '\r' }

  predicate IsDigit(c: char) { '0' <= c <= '9' }

  predicate IsUpper(c: char) { 'A' <= c <= 'Z' }

  predicate IsWordStart(c: char) { IsUpper(c) || 'a' <= c <= 'z' || c == '_' }

  predicate IsWordChar(c: char) { IsWordStart(c) || IsDigit(c) }

  function LowerChar(c: char): char { if IsUpper(c) then c - 'A' + 'a' else c }

  function Lower(s: string): (r: string)
    ensures |r| == |s|
  {
    seq(|s|, i requires 0 <= i < |s| => LowerChar(s[i]))
  }

  function KeywordType(word: string): TokenType {
    if word == "and" then KwAnd
    else if word == "or" then KwOr
    else if word == "not" then KwNot
    else if word == "is" then KwIs
    else if word == "between" then KwBetween
    else if word == "in" then KwIn
    else if word == "like" then KwLike
    else if word == "exists" then KwExists
    else if word == "select" then KwSelect
    else if word == "true" then KwTrue
    else if word == "false" then KwFalse
    else if word == "null" then KwNull
    else if IsReserved(word) then Reserved
    else Identifier
  }

  predicate IsReserved(word: string) {
    match |word|
    case 2 => word == "on" || word == "by" || word == "as" || word == "to"
    case 3 => word == "asc" || word == "add" || word == "key" || word == "set" || word == "int"
    case 4 => word == "into" || word == "from" || word == "desc" || word == "join" || word == "left" || word == "full"
      || word == "drop"
    case 5 => word == "table" || word == "index" || word == "where" || word == "group" || word == "order"
      || word == "limit" || word == "inner" || word == "right" || word == "outer" || word == "alter" || word == "begin"
    case 6 => word == "create" || word == "unique" || word == "insert" || word == "values" || word == "having"
      || word == "delete" || word == "column" || word == "rename" || word == "commit" || word == "update"
    case 7 => word == "explain" || word == "default" || word == "primary" || word == "varchar"
    case 8 => word == "distinct" || word == "rollback"
    case _ => false
  }

  // ----- pieces of the text -----

  predicate StartsWith(s: string, a: char, b: char) { |s| >= 2 && s[0] == a && s[1] == b }

  function WordLength(s: string): (n: nat)
    ensures n <= |s|
    ensures forall i :: 0 <= i < n ==> IsWordChar(s[i])
    ensures n < |s| ==> !IsWordChar(s[n])
  {
    if s == "" || !IsWordChar(s[0]) then 0 else 1 + WordLength(s[1..])
  }

  function DigitsLength(s: string): (n: nat)
    ensures n <= |s|
    ensures forall i :: 0 <= i < n ==> IsDigit(s[i])
    ensures n < |s| ==> !IsDigit(s[n])
  {
    if s == "" || !IsDigit(s[0]) then 0 else 1 + DigitsLength(s[1..])
  }

  predicate StartsNumber(s: string) {
    s != "" && (IsDigit(s[0]) || (|s| >= 2 && s[0] == '-' && IsDigit(s[1])))
  }

  function NumberLength(s: string): (n: nat)
    requires StartsNumber(s)
    ensures 0 < n <= |s|
  {
    if s[0] == '-' then 1 + DigitsLength(s[1..]) else DigitsLength(s)
  }

  /** A digit after a decimal point. */
  predicate StartsFraction(s: string) { |s| >= 2 && s[0] == '.' && IsDigit(s[1]) }

  /** What follows a line comment. */
  function AfterLine(s: string): (rest: string)
    ensures |rest| <= |s|
  {
    if s == "" || s[0] == '\n' || s[0] == '\r' then s else AfterLine(s[1..])
  }

  /** What follows the end of a block comment, if it ends. */
  function AfterBlock(s: string): (rest: Option<string>)
    ensures rest.Some? ==> |rest.value| < |s|
  {
    if s == "" then None else if StartsWith(s, '*', '/') then Some(s[2..]) else AfterBlock(s[1..])
  }

  /** The text up to the closing quote, a doubled quote standing for one, and what follows. */
  function Quoted(s: string): (r: Option<(string, string)>)
    ensures r.Some? ==> |r.value.1| < |s|
  {
    if s == "" then None
    else if s[0] == '\'' then
      if StartsWith(s, '\'', '\'') then
        match Quoted(s[2..])
        case Some((value, rest)) => Some(("'" + value, rest))
        case None => None
      else Some(("", s[1..]))
    else
      match Quoted(s[1..])
      case Some((value, rest)) => Some(([s[0]] + value, rest))
      case None => None
  }

  /** An operator of two characters. */
  function Pair(s: string): TokenType {
    if StartsWith(s, '>', '=') then GreaterEqual
    else if StartsWith(s, '<', '=') then LessEqual
    else if StartsWith(s, '!', '=') then NotEqual
    else if StartsWith(s, '=', '=') then Equal
    else if StartsWith(s, '<', '>') then NotEqual
    else EndOfFile
  }

  function Punctuation(c: char): TokenType {
    match c
    case ',' => Comma
    case '.' => Dot
    case '(' => LeftParen
    case ')' => RightParen
    case '*' => Star
    case '=' => Equal
    case '>' => Greater
    case '<' => Less
    case '!' => NotEqual
    case '+' => Plus
    case '-' => Minus
    case '/' => Slash
    case ';' => Semicolon
    case _ => EndOfFile
  }

  // ----- one token at a time -----

  /** What the text starts with: something to skip, a token, or an error. */
  datatype Scan = Skip(rest: string) | Emit(token: Token, rest: string) | Bad

  function ScanName(s: string): Scan {
    var n := WordLength(s);
    var word := Lower(s[..n]);
    Emit(Token(KeywordType(word), word), s[n..])
  }

  function ScanString(s: string): Scan
    requires s != ""
  {
    match Quoted(s[1..])
    case Some((value, rest)) => Emit(Token(Str, value), rest)
    case None => Bad
  }

  function ScanNumber(s: string): Scan
    requires StartsNumber(s)
  {
    var n := NumberLength(s);
    if StartsFraction(s[n..]) then Bad else Emit(Token(Integer, s[..n]), s[n..])
  }

  function ScanSymbol(s: string): Scan
    requires s != ""
  {
    if Pair(s) != EndOfFile then Emit(Token(Pair(s), s[..2]), s[2..])
    else if Punctuation(s[0]) != EndOfFile then Emit(Token(Punctuation(s[0]), s[..1]), s[1..])
    else Bad
  }

  function ScanOne(s: string): (r: Scan)
    requires s != ""
    ensures r.Skip? || r.Emit? ==> |r.rest| < |s|
  {
    if IsSpace(s[0]) then Skip(s[1..])
    else if StartsWith(s, '-', '-') then Skip(AfterLine(s[1..]))
    else if StartsWith(s, '/', '*') then
      match AfterBlock(s[2..])
      case Some(rest) => Skip(rest)
      case None => Bad
    else if IsWordStart(s[0]) then ScanName(s)
    else if StartsNumber(s) then ScanNumber(s)
    else if s[0] == '\'' then ScanString(s)
    else ScanSymbol(s)
  }

  function Prepend(token: Token, tokens: Option<seq<Token>>): Option<seq<Token>> {
    if tokens.None? then None else Some([token] + tokens.value)
  }

  /** All tokens, closed by the end marker. */
  function Lex(s: string): Option<seq<Token>>
    decreases |s|
  {
    if s == "" then Some([END])
    else match ScanOne(s)
      case Skip(rest) => Lex(rest)
      case Emit(token, rest) => Prepend(token, Lex(rest))
      case Bad => None
  }

  // ----- the loops -----

  function Append(tokens: seq<Token>, more: Option<seq<Token>>): Option<seq<Token>> {
    if more.None? then None else Some(tokens + more.value)
  }

  lemma TailOfTail(s: string, i: nat, n: nat)
    requires i + n <= |s|
    ensures s[i..][n..] == s[i + n..]
  {
  }

  method ScanWord(sql: string, start: nat) returns (word: string, end: nat)
    requires start <= |sql|
    ensures end == start + WordLength(sql[start..]) && word == Lower(sql[start..end])
  {
    word, end := "", start;
    while end < |sql| && IsWordChar(sql[end])
      invariant start <= end <= |sql| && |word| == end - start
      invariant forall k :: 0 <= k < |word| ==> word[k] == LowerChar(sql[start + k])
      invariant WordLength(sql[start..]) == end - start + WordLength(sql[end..])
    {
      assert sql[end..][1..] == sql[end + 1..];
      word := word + [LowerChar(sql[end])];
      end := end + 1;
    }
    assert word == Lower(sql[start..end]);
  }

  method ScanDigits(sql: string, start: nat) returns (end: nat)
    requires start <= |sql|
    ensures end == start + DigitsLength(sql[start..])
  {
    end := start;
    while end < |sql| && IsDigit(sql[end])
      invariant start <= end <= |sql|
      invariant DigitsLength(sql[start..]) == end - start + DigitsLength(sql[end..])
    {
      assert sql[end..][1..] == sql[end + 1..];
      end := end + 1;
    }
  }

  method SkipLine(sql: string, start: nat) returns (end: nat)
    requires start <= |sql|
    ensures start <= end <= |sql| && sql[end..] == AfterLine(sql[start..])
  {
    end := start;
    while end < |sql| && sql[end] != '\n' && sql[end] != '\r'
      invariant start <= end <= |sql| && AfterLine(sql[start..]) == AfterLine(sql[end..])
    {
      assert sql[end..][1..] == sql[end + 1..];
      end := end + 1;
    }
  }

  method SkipBlock(sql: string, start: nat) returns (closed: bool, end: nat)
    requires start <= |sql|
    ensures start <= end <= |sql|
    ensures AfterBlock(sql[start..]) == if closed then Some(sql[end..]) else None
  {
    closed, end := false, start;
    while end < |sql|
      invariant start <= end <= |sql| && AfterBlock(sql[start..]) == AfterBlock(sql[end..])
    {
      TailOfTail(sql, end, 1);
      if end + 1 < |sql| && sql[end] == '*' && sql[end + 1] == '/' {
        TailOfTail(sql, end, 2);
        assert StartsWith(sql[end..], '*', '/');
        return true, end + 2;
      }
      assert !StartsWith(sql[end..], '*', '/');
      end := end + 1;
    }
  }

  /** More text in front of a quoted one. */
  function WithPrefix(prefix: string, r: Option<(string, string)>): Option<(string, string)> {
    if r.None? then None else Some((prefix + r.value.0, r.value.1))
  }

  lemma PrefixTwice(a: string, b: string, r: Option<(string, string)>)
    ensures WithPrefix(a, WithPrefix(b, r)) == WithPrefix(a + b, r)
  {
    if r.Some? { assert a + (b + r.value.0) == (a + b) + r.value.0; }
  }

  method ScanQuoted(sql: string, start: nat) returns (closed: bool, value: string, end: nat)
    requires start <= |sql|
    ensures start <= end <= |sql|
    ensures Quoted(sql[start..]) == if closed then Some((value, sql[end..])) else None
  {
    closed, value, end := false, "", start;
    assert WithPrefix("", Quoted(sql[start..])) == Quoted(sql[start..]) by {
      if Quoted(sql[start..]).Some? { assert "" + Quoted(sql[start..]).value.0 == Quoted(sql[start..]).value.0; }
    }
    while end < |sql|
      invariant start <= end <= |sql|
      invariant Quoted(sql[start..]) == WithPrefix(value, Quoted(sql[end..]))
      decreases |sql| - end
    {
      ghost var here := sql[end..];
      TailOfTail(sql, end, 1);
      if sql[end] == '\'' {
        if end + 1 < |sql| && sql[end + 1] == '\'' {
          TailOfTail(sql, end, 2);
          assert Quoted(here) == WithPrefix("'", Quoted(sql[end + 2..]));
          PrefixTwice(value, "'", Quoted(sql[end + 2..]));
          value := value + "'";
          end := end + 2;
        } else {
          assert Quoted(here) == Some(("", sql[end + 1..]));
          assert value + "" == value;
          return true, value, end + 1;
        }
      } else {
        assert Quoted(here) == WithPrefix([sql[end]], Quoted(sql[end + 1..]));
        PrefixTwice(value, [sql[end]], Quoted(sql[end + 1..]));
        value := value + [sql[end]];
        end := end + 1;
      }
    }
  }

  method ScanNameAt(sql: string, offset: nat) returns (token: Token, next: nat)
    requires offset < |sql| && IsWordStart(sql[offset])
    ensures offset < next <= |sql| && ScanName(sql[offset..]) == Emit(token, sql[next..])
  {
    var word;
    word, next := ScanWord(sql, offset);
    ghost var n := next - offset;
    TailOfTail(sql, offset, n);
    assert sql[offset..][..n] == sql[offset..next];
    token := Token(KeywordType(word), word);
  }

  method ScanStringAt(sql: string, offset: nat) returns (ok: bool, token: Token, next: nat)
    requires offset < |sql|
    ensures offset < next <= |sql|
    ensures ScanString(sql[offset..]) == if ok then Emit(token, sql[next..]) else Bad
  {
    TailOfTail(sql, offset, 1);
    var value;
    ok, value, next := ScanQuoted(sql, offset + 1);
    token := Token(Str, value);
  }

  lemma NumberIs(sql: string, offset: nat, next: nat)
    requires offset < next <= |sql| && StartsNumber(sql[offset..])
    requires NumberLength(sql[offset..]) == next - offset
    ensures ScanNumber(sql[offset..])
            == if StartsFraction(sql[next..]) then Bad else Emit(Token(Integer, sql[offset..next]), sql[next..])
  {
    var n := next - offset;
    TailOfTail(sql, offset, n);
    assert sql[offset..][..n] == sql[offset..next];
  }

  method ScanNumberAt(sql: string, offset: nat) returns (ok: bool, token: Token, next: nat)
    requires offset < |sql| && StartsNumber(sql[offset..])
    ensures offset < next <= |sql|
    ensures ScanNumber(sql[offset..]) == if ok then Emit(token, sql[next..]) else Bad
  {
    var digits := offset;
    if sql[offset] == '-' {
      TailOfTail(sql, offset, 1);
      digits := offset + 1;
    }
    next := ScanDigits(sql, digits);
    NumberIs(sql, offset, next);
    ok := !(next + 1 < |sql| && sql[next] == '.' && IsDigit(sql[next + 1]));
    token := Token(Integer, sql[offset..next]);
  }

  method ScanSymbolAt(sql: string, offset: nat) returns (ok: bool, token: Token, next: nat)
    requires offset < |sql|
    ensures ok ==> offset < next <= |sql|
    ensures ScanSymbol(sql[offset..]) == if ok then Emit(token, sql[next..]) else Bad
  {
    var here := sql[offset..];
    ok, token, next := true, END, offset;
    if Pair(here) != EndOfFile {
      TailOfTail(sql, offset, 2);
      token, next := Token(Pair(here), here[..2]), offset + 2;
    } else if Punctuation(here[0]) != EndOfFile {
      TailOfTail(sql, offset, 1);
      token, next := Token(Punctuation(here[0]), here[..1]), offset + 1;
    } else {
      ok := false;
    }
  }

  lemma AppendOne(tokens: seq<Token>, token: Token, more: Option<seq<Token>>)
    ensures Append(tokens, Prepend(token, more)) == Append(tokens + [token], more)
  {
    if more.Some? { assert tokens + ([token] + more.value) == (tokens + [token]) + more.value; }
  }

  lemma AppendNothing(more: Option<seq<Token>>)
    ensures Append([], more) == more
  {
    if more.Some? { assert [] + more.value == more.value; }
  }

  /** A space or a comment at the offset, and where it ends; or an unclosed comment. */
  predicate IsBlank(s: string) { s != "" && (IsSpace(s[0]) || StartsWith(s, '-', '-') || StartsWith(s, '/', '*')) }

  method SkipAt(sql: string, offset: nat) returns (ok: bool, next: nat)
    requires offset < |sql| && IsBlank(sql[offset..])
    ensures ok ==> offset < next <= |sql|
    ensures ScanOne(sql[offset..]) == if ok then Skip(sql[next..]) else Bad
  {
    ok, next := true, offset + 1;
    TailOfTail(sql, offset, 1);
    if !IsSpace(sql[offset]) {
      if sql[offset] == '-' {
        next := SkipLine(sql, offset + 1);
      } else {
        TailOfTail(sql, offset, 2);
        ok, next := SkipBlock(sql, offset + 2);
      }
    }
  }

  /** One step of the main loop: the token found, if any, and where the next step starts. */
  method ScanAt(sql: string, offset: nat) returns (ok: bool, token: Option<Token>, next: nat)
    requires offset < |sql|
    ensures ok ==> offset < next <= |sql|
    ensures ScanOne(sql[offset..])
            == if !ok then Bad else if token.None? then Skip(sql[next..]) else Emit(token.value, sql[next..])
  {
    var here := sql[offset..];
    var found := END;
    if IsBlank(here) {
      ok, next := SkipAt(sql, offset);
      return ok, None, next;
    }
    if IsWordStart(here[0]) {
      found, next := ScanNameAt(sql, offset);
      ok := true;
    } else if StartsNumber(here) {
      ok, found, next := ScanNumberAt(sql, offset);
    } else if here[0] == '\'' {
      ok, found, next := ScanStringAt(sql, offset);
    } else {
      ok, found, next := ScanSymbolAt(sql, offset);
    }
    token := Some(found);
  }

  method Tokenize(sql: string) returns (r: Option<seq<Token>>)
    ensures r == Lex(sql)
  {
    var tokens: seq<Token> := [];
    var offset := 0;
    AppendNothing(Lex(sql));
    assert sql[0..] == sql;
    while offset < |sql|
      invariant 0 <= offset <= |sql|
      invariant Lex(sql) == Append(tokens, Lex(sql[offset..]))
      decreases |sql| - offset
    {
      var ok, token, next := ScanAt(sql, offset);
      if !ok { return None; }
      if token.Some? {
        AppendOne(tokens, token.value, Lex(sql[next..]));
        tokens := tokens + [token.value];
      }
      offset := next;
    }
    return Some(tokens + [END]);
  }
}
