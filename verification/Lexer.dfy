/**
 src/parser/tokenizer.cpp. `Lex` says which tokens a text denotes; `Tokenize` is the scanning loop.
 The key law is `LexCompose`: texts that meet at a safe boundary tokenize independently.
 */
module Lexer {
  import opened Results
  import opened Ast

  predicate IsSpace(c: char) {
    c == ' ' || '\t' <= c <= '\r'
  }

  predicate IsDigit(c: char) {
    '0' <= c <= '9'
  }

  predicate IsAlpha(c: char) {
    'a' <= c <= 'z' || 'A' <= c <= 'Z'
  }

  predicate IsIdentifierStart(c: char) {
    IsAlpha(c) || c == '_'
  }

  predicate IsIdentifierPart(c: char) {
    IsAlpha(c) || IsDigit(c) || c == '_' || c == '.'
  }

  predicate IsNumberPart(c: char) {
    IsDigit(c) || c == '.'
  }

  /** How many leading characters of `s` satisfy `part`. */
  function Span(s: string, part: char -> bool): (n: nat)
    ensures n <= |s|
    ensures forall i :: 0 <= i < n ==> part(s[i])
    ensures n < |s| ==> !part(s[n])
  {
    if s == [] || !part(s[0]) then 0 else 1 + Span(s[1..], part)
  }

  /** Scans past an opening quote: the unescaped text and the characters consumed, closing quote included. */
  function ScanString(s: string): (r: Result<(string, nat)>)
    ensures r.Ok? ==> 0 < r.value.1 <= |s|
    ensures r.Ok? ==> s[r.value.1 - 1] == '"'
  {
    if s == [] then Err
    else if s[0] == '"' then Ok(("", 1))
    else if s[0] == '\\' then
      if |s| < 2 then Err
      else
        var rest :- ScanString(s[2..]);
        Ok(([s[1]] + rest.0, rest.1 + 2))
    else
      var rest :- ScanString(s[1..]);
      Ok(([s[0]] + rest.0, rest.1 + 1))
  }

  function Punctuation(c: char): Result<TokenKind> {
    match c
    case ',' => Ok(Comma)
    case ';' => Ok(Semicolon)
    case '(' => Ok(LeftParen)
    case ')' => Ok(RightParen)
    case '*' => Ok(Star)
    case '=' => Ok(Equal)
    case '>' => Ok(Greater)
    case '<' => Ok(Less)
    case _ => Err
  }

  /** The token at the front of a text that does not start with a space, and its width. */
  function LexOne(s: string): (r: Result<(Token, nat)>)
    requires s != []
    ensures r.Ok? ==> 0 < r.value.1 <= |s| && r.value.0.kind != End
  {
    if IsIdentifierStart(s[0]) then
      var n := 1 + Span(s[1..], IsIdentifierPart);
      Ok((Token(Identifier, s[..n]), n))
    else if IsDigit(s[0]) || s[0] == '-' then
      var n := 1 + Span(s[1..], IsNumberPart);
      Ok((Token(Number, s[..n]), n))
    else if s[0] == '"' then
      var scanned :- ScanString(s[1..]);
      Ok((Token(StringLiteral, scanned.0), scanned.1 + 1))
    else
      var kind :- Punctuation(s[0]);
      Ok((Token(kind, [s[0]]), 1))
  }

  function Then(ts: seq<Token>, rest: Result<seq<Token>>): Result<seq<Token>> {
    if rest.Ok? then Ok(ts + rest.value) else Err
  }

  /** The tokens of a text, the final `End` apart. */
  function Lex(s: string): (r: Result<seq<Token>>)
    ensures r.Ok? ==> forall i :: 0 <= i < |r.value| ==> r.value[i].kind != End
    decreases |s|
  {
    if s == [] then Ok([])
    else if IsSpace(s[0]) then Lex(s[1..])
    else
      var one :- LexOne(s);
      Then([one.0], Lex(s[one.1..]))
  }

  const END := Token(End, "")

  function Tokens(s: string): Result<seq<Token>> {
    var ts :- Lex(s);
    Ok(ts + [END])
  }

  // ----- The scanning loop -----

  method Tokenize(sql: string) returns (r: Result<seq<Token>>)
    ensures r == Tokens(sql)
  {
    var tokens: seq<Token> := [];
    var pos := 0;
    assert sql[0..] == sql;
    ThenNothing(Lex(sql));
    while pos < |sql|
      invariant 0 <= pos <= |sql|
      invariant Lex(sql) == Then(tokens, Lex(sql[pos..]))
    {
      if IsSpace(sql[pos]) {
        assert sql[pos..][1..] == sql[pos + 1..];
        pos := pos + 1;
      } else {
        var one := ScanToken(sql, pos);
        if one.Err? {
          return Err;
        }
        StepLex(sql, pos, one.value.1, tokens, tokens + [one.value.0]);
        tokens := tokens + [one.value.0];
        pos := one.value.1;
      }
    }
    assert sql[pos..] == [];
    ThenEnd(tokens);
    return Ok(tokens + [END]);
  }

  /** One token at `pos`, and the position after it. */
  method ScanToken(sql: string, pos: nat) returns (r: Result<(Token, nat)>)
    requires pos < |sql|
    ensures r.Ok? <==> LexOne(sql[pos..]).Ok?
    ensures r.Ok? ==> r.value.0 == LexOne(sql[pos..]).value.0
    ensures r.Ok? ==> r.value.1 == pos + LexOne(sql[pos..]).value.1
  {
    var ch := sql[pos];
    assert sql[pos..][1..] == sql[pos + 1..];
    if IsIdentifierStart(ch) {
      var end := ScanSpan(sql, pos + 1, IsIdentifierPart);
      assert sql[pos..][..end - pos] == sql[pos..end];
      return Ok((Token(Identifier, sql[pos..end]), end));
    }
    if IsDigit(ch) || ch == '-' {
      var end := ScanSpan(sql, pos + 1, IsNumberPart);
      assert sql[pos..][..end - pos] == sql[pos..end];
      return Ok((Token(Number, sql[pos..end]), end));
    }
    if ch == '"' {
      var scanned := ScanQuoted(sql, pos + 1);
      if scanned.Err? {
        return Err;
      }
      return Ok((Token(StringLiteral, scanned.value.0), scanned.value.1));
    }
    var kind := Punctuation(ch);
    if kind.Err? {
      return Err;
    }
    return Ok((Token(kind.value, [ch]), pos + 1));
  }

  lemma ThenNothing(r: Result<seq<Token>>)
    ensures Then([], r) == r
  {
    if r.Ok? {
      assert [] + r.value == r.value;
    }
  }

  lemma ThenEnd(ts: seq<Token>)
    ensures Then(ts, Ok([])) == Ok(ts)
  {
    assert ts + [] == ts;
  }

  lemma ThenThen(x: seq<Token>, y: seq<Token>, r: Result<seq<Token>>)
    ensures Then(x, Then(y, r)) == Then(x + y, r)
  {
    if r.Ok? {
      assert x + (y + r.value) == (x + y) + r.value;
    }
  }

  lemma StepLex(sql: string, pos: nat, end: nat, before: seq<Token>, after: seq<Token>)
    requires pos < end <= |sql| && !IsSpace(sql[pos])
    requires LexOne(sql[pos..]).Ok? && LexOne(sql[pos..]).value.1 == end - pos
    requires after == before + [LexOne(sql[pos..]).value.0]
    ensures Then(before, Lex(sql[pos..])) == Then(after, Lex(sql[end..]))
  {
    var rest := sql[pos..];
    var one := LexOne(rest).value;
    assert rest[one.1..] == sql[end..];
    ThenThen(before, [one.0], Lex(sql[end..]));
  }

  method ScanSpan(sql: string, start: nat, part: char -> bool) returns (end: nat)
    requires start <= |sql|
    ensures start <= end <= |sql|
    ensures end - start == Span(sql[start..], part)
  {
    end := start;
    while end < |sql| && part(sql[end])
      invariant start <= end <= |sql|
      invariant Span(sql[start..], part) == end - start + Span(sql[end..], part)
    {
      assert sql[end..][1..] == sql[end + 1..];
      end := end + 1;
    }
  }

  /** The inner loop of a string literal: the unescaped text and the position after the closing quote. */
  method ScanQuoted(sql: string, start: nat) returns (r: Result<(string, nat)>)
    requires start <= |sql|
    ensures r.Ok? <==> ScanString(sql[start..]).Ok?
    ensures r.Ok? ==> r.value.0 == ScanString(sql[start..]).value.0
    ensures r.Ok? ==> r.value.1 == start + ScanString(sql[start..]).value.1 <= |sql|
  {
    var pos := start;
    var value := "";
    AfterNothing(ScanString(sql[start..]));
    while pos < |sql| && sql[pos] != '"'
      invariant start <= pos <= |sql|
      invariant ScanString(sql[start..]) == After(value, pos - start, ScanString(sql[pos..]))
    {
      ghost var from, before := pos, value;
      if sql[pos] == '\\' {
        pos := pos + 1;
        if pos >= |sql| {
          return Err;
        }
      }
      value := value + [sql[pos]];
      pos := pos + 1;
      QuotedStep(sql, from, pos, before, from - start);
    }
    if pos >= |sql| {
      assert sql[pos..] == [];
      return Err;
    }
    assert value + "" == value;
    return Ok((value, pos + 1));
  }

  ghost function After(value: string, width: nat, r: Result<(string, nat)>): Result<(string, nat)> {
    if r.Ok? then Ok((value + r.value.0, width + r.value.1)) else Err
  }

  lemma AfterNothing(r: Result<(string, nat)>)
    ensures After("", 0, r) == r
  {
    if r.Ok? {
      assert "" + r.value.0 == r.value.0;
    }
  }

  lemma QuotedStep(sql: string, pos: nat, next: nat, value: string, width: nat)
    requires pos < |sql| && sql[pos] != '"'
    requires next == (if sql[pos] == '\\' then pos + 2 else pos + 1) <= |sql|
    ensures After(value, width, ScanString(sql[pos..]))
         == After(value + [sql[next - 1]], width + next - pos, ScanString(sql[next..]))
  {
    assert sql[pos..][next - pos..] == sql[next..];
    var rest := ScanString(sql[next..]);
    if rest.Ok? {
      assert value + ([sql[next - 1]] + rest.value.0) == (value + [sql[next - 1]]) + rest.value.0;
    }
  }

  // ----- Compositionality -----

  /** A token that ends in such a character might absorb what follows it. */
  predicate Gluing(c: char) {
    IsIdentifierPart(c) || c == '-'
  }

  /** Nothing at the start of `b` can extend the last token of `a`. */
  predicate SafeBoundary(a: string, b: string) {
    a == [] || b == [] || !Gluing(a[|a| - 1]) || !IsIdentifierPart(b[0])
  }

  lemma {:induction false} SpanAppend(s: string, b: string, part: char -> bool)
    requires Span(s, part) == |s| ==> b == [] || !part(b[0])
    ensures Span(s + b, part) == Span(s, part)
  {
    if s == [] {
      assert s + b == b;
    } else if part(s[0]) {
      assert (s + b)[1..] == s[1..] + b;
      SpanAppend(s[1..], b, part);
    }
  }

  lemma {:induction false} ScanStringAppend(s: string, b: string)
    requires ScanString(s).Ok?
    ensures ScanString(s + b) == ScanString(s)
  {
    if s[0] == '"' {
    } else if s[0] == '\\' {
      assert (s + b)[2..] == s[2..] + b;
      ScanStringAppend(s[2..], b);
    } else {
      assert (s + b)[1..] == s[1..] + b;
      ScanStringAppend(s[1..], b);
    }
  }

  lemma LexOneAppend(a: string, b: string)
    requires a != [] && LexOne(a).Ok? && SafeBoundary(a, b)
    ensures LexOne(a + b) == LexOne(a)
  {
    assert (a + b)[1..] == a[1..] + b;
    assert forall n :: 0 <= n <= |a| ==> (a + b)[..n] == a[..n];
    if IsIdentifierStart(a[0]) {
      SpanAppend(a[1..], b, IsIdentifierPart);
    } else if IsDigit(a[0]) || a[0] == '-' {
      SpanAppend(a[1..], b, IsNumberPart);
    } else if a[0] == '"' {
      ScanStringAppend(a[1..], b);
    }
  }

  /** Texts meeting at a safe boundary tokenize independently. */
  lemma {:induction false} LexCompose(a: string, b: string)
    requires Lex(a).Ok? && SafeBoundary(a, b)
    ensures Lex(a + b) == Then(Lex(a).value, Lex(b))
    decreases |a|
  {
    if a == [] {
      assert a + b == b;
      ThenNothing(Lex(b));
    } else if IsSpace(a[0]) {
      assert (a + b)[1..] == a[1..] + b;
      LexCompose(a[1..], b);
    } else {
      LexOneAppend(a, b);
      var n := LexOne(a).value.1;
      assert (a + b)[n..] == a[n..] + b;
      LexCompose(a[n..], b);
      ThenThen([LexOne(a).value.0], Lex(a[n..]).value, Lex(b));
    }
  }

  // ----- The texts of single tokens -----

  predicate IsName(s: string) {
    s != [] && IsIdentifierStart(s[0]) && forall i :: 1 <= i < |s| ==> IsIdentifierPart(s[i])
  }

  predicate IsNumberText(s: string) {
    s != [] && (IsDigit(s[0]) || s[0] == '-') && forall i :: 1 <= i < |s| ==> IsNumberPart(s[i])
  }

  lemma {:induction false} SpanAll(s: string, part: char -> bool)
    requires forall i :: 0 <= i < |s| ==> part(s[i])
    ensures Span(s, part) == |s|
  {
    if s != [] {
      SpanAll(s[1..], part);
    }
  }

  lemma LexName(s: string)
    requires IsName(s)
    ensures Lex(s) == Ok([Token(Identifier, s)])
  {
    SpanAll(s[1..], IsIdentifierPart);
    assert s[|s|..] == [] && s[..|s|] == s;
    assert LexOne(s) == Ok((Token(Identifier, s), |s|));
    ThenEnd([Token(Identifier, s)]);
  }

  lemma LexNumber(s: string)
    requires IsNumberText(s)
    ensures Lex(s) == Ok([Token(Number, s)])
  {
    SpanAll(s[1..], IsNumberPart);
    assert s[|s|..] == [] && s[..|s|] == s;
    assert LexOne(s) == Ok((Token(Number, s), |s|));
    ThenEnd([Token(Number, s)]);
  }

  /** Every identifier the tokenizer emits is a name. */
  lemma {:induction false} LexedNames(s: string, i: nat)
    requires Lex(s).Ok? && i < |Lex(s).value| && Lex(s).value[i].kind == Identifier
    ensures IsName(Lex(s).value[i].lexeme)
    decreases |s|
  {
    if IsSpace(s[0]) {
      LexedNames(s[1..], i);
    } else {
      var one := LexOne(s).value;
      assert Lex(s).value == [one.0] + Lex(s[one.1..]).value;
      if i > 0 {
        LexedNames(s[one.1..], i - 1);
      }
    }
  }
}
