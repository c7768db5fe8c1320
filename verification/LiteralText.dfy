/**
 Literals: the text each value prints as, the tokens that text makes, and the value the parser makes of them. Integers,
 strings and NULL come back as they were; a double need not, and this module says exactly what becomes of it.
 */
module LiteralText {
  import opened Results
  import opened Values
  import opened Ast
  import opened Lexer
  import opened SqlText
  import opened Grammar

  lemma {:induction false} DigitsRoundTrip(n: nat)
    ensures DigitsValue(Digits(n)) == n
  {
    if n < 10 {
      assert Digits(n)[..0] == [];
    } else {
      var s := Digits(n);
      DigitsRoundTrip(n / 10);
      assert s[..|s| - 1] == Digits(n / 10);
    }
  }

  lemma IntRoundTrip(i: Int64)
    ensures ParseInt(IntText(i)) == Ok(i)
    ensures IsNumberText(IntText(i)) && '.' !in IntText(i)
  {
    var n: int := i;
    var body := Digits(if n < 0 then -n else n);
    DigitsRoundTrip(if n < 0 then -n else n);
    assert IsDigit(body[0]);
    if n < 0 {
      assert IntText(i) == "-" + body && IntText(i)[1..] == body;
    } else {
      assert IntText(i) == body;
    }
  }

  /** Integers are written in decimal, a minus sign in front of negative ones. */
  lemma Decimals()
    ensures IntText(1024) == "1024" && IntText(-7) == "-7"
    ensures ParseInt("1024") == Ok(1024) && ParseInt("-7") == Ok(-7)
  {
    assert Digits(1) == "1" && Digits(10) == "10" && Digits(102) == "102" && Digits(1024) == "1024";
    assert Digits(7) == "7";
    IntRoundTrip(1024);
    IntRoundTrip(-7);
  }

  lemma {:induction false} EscapeRoundTrip(s: string, rest: string)
    ensures ScanString(Escape(s) + "\"" + rest) == Ok((s, |Escape(s)| + 1))
  {
    var text := Escape(s) + "\"" + rest;
    if s == [] {
      assert text[0] == '"';
    } else {
      EscapeRoundTrip(s[1..], rest);
      var tail := Escape(s[1..]) + "\"" + rest;
      if s[0] == '"' || s[0] == '\\' {
        assert Escape(s) == ['\\', s[0]] + Escape(s[1..]);
        assert text[2..] == tail;
      } else {
        assert text[1..] == tail;
      }
      assert [s[0]] + s[1..] == s;
    }
  }

  lemma LexQuoted(s: string)
    ensures Lex("\"" + Escape(s) + "\"") == Ok([Token(StringLiteral, s)])
  {
    var text := "\"" + Escape(s) + "\"";
    EscapeRoundTrip(s, "");
    assert text[1..] == Escape(s) + "\"" + "";
    assert LexOne(text) == Ok((Token(StringLiteral, s), |text|));
    assert text[|text|..] == [];
    ThenEnd([Token(StringLiteral, s)]);
  }

  // ----- The texts of doubles -----

  /** Length of the number token at the front of a text that starts with one. */
  function Mantissa(s: string): (m: nat)
    requires s != []
    ensures 0 < m <= |s|
  {
    1 + Span(s[1..], IsNumberPart)
  }

  /** A number, an `e`, a sign and digits. */
  predicate Exponential(s: string) {
    s != [] && (IsDigit(s[0]) || s[0] == '-') &&
    var m := Mantissa(s);
    && m + 2 < |s| && s[m] == 'e' && (s[m + 1] == '+' || s[m + 1] == '-')
    && forall i :: m + 2 <= i < |s| ==> IsDigit(s[i])
  }

  /** Names of the values that are not finite. */
  predicate NotFinite(s: string) {
    s == "inf" || s == "nan" || s == "-inf" || s == "-nan"
  }

  /** The shapes `operator<<` gives a double. */
  predicate FloatShape(s: string) {
    IsNumberText(s) || Exponential(s) || NotFinite(s)
  }

  predicate Shaped(fp: FloatText, v: Value) {
    v.Dbl? ==> FloatShape(fp.format(v.bits))
  }

  lemma ShapesDiffer(s: string)
    ensures !(IsNumberText(s) && Exponential(s)) && !(IsNumberText(s) && NotFinite(s)) &&
        !(Exponential(s) && NotFinite(s))
  {
    assert NotFinite(s) ==> !IsNumberPart(s[1]);
  }

  /** The tokens a double's text makes; after `1e` a plus sign ends the tokenizer. */
  function DoubleTokens(s: string): seq<Token> {
    if IsNumberText(s) then [Token(Number, s)]
    else if Exponential(s) then
      var m := Mantissa(s);
      [Token(Number, s[..m]), Token(Identifier, "e")] + if s[m + 1] == '-' then [Token(Number, s[m + 1..])] else []
    else if s != [] && s[0] == '-' then [Token(Number, "-"), Token(Identifier, s[1..])]
    else [Token(Identifier, s)]
  }

  function LiteralTokens(fp: FloatText, v: Value): seq<Token> {
    match v
    case Null => [Token(Identifier, "NULL")]
    case Int(i) => [Token(Number, IntText(i))]
    case Dbl(bits) => DoubleTokens(fp.format(bits))
    case Str(s) => [Token(StringLiteral, s)]
  }

  /** The text survives the tokenizer: it is not a double with a positive exponent. */
  predicate Alive(fp: FloatText, v: Value) {
    !(v.Dbl? && Exponential(fp.format(v.bits)) && fp.format(v.bits)[Mantissa(fp.format(v.bits)) + 1] == '+')
  }

  // ----- What a literal reads back as -----

  /** The value the parser makes of the printed literal: a double without a point comes back as an integer. */
  function ReadAs(fp: FloatText, v: Value): Result<Value> {
    if !v.Dbl? then Ok(v)
    else
      var text := fp.format(v.bits);
      if !IsNumberText(text) then Err
      else if '.' in text then
        var read := fp.read(text);
        if read.Some? then Ok(Dbl(read.value)) else Err
      else
        var i :- ParseInt(text);
        Ok(Int(i))
  }

  /** Whether a literal's text reads back as that literal: always, save for a double whose text betrays it. */
  predicate Rereads(fp: FloatText, v: Value) {
    v.Dbl? ==>
      var text := fp.format(v.bits);
      IsNumberText(text) && '.' in text && fp.read(text) == Some(v.bits)
  }

  lemma RereadsExactly(fp: FloatText, v: Value)
    ensures Rereads(fp, v) <==> ReadAs(fp, v) == Ok(v)
    ensures Rereads(fp, v) ==> Shaped(fp, v) && Alive(fp, v)
  {
    if v.Dbl? {
      ShapesDiffer(fp.format(v.bits));
    }
  }

  lemma DeadReadsNot(fp: FloatText, v: Value)
    ensures !Alive(fp, v) ==> ReadAs(fp, v).Err?
  {
    if v.Dbl? {
      ShapesDiffer(fp.format(v.bits));
    }
  }

  // ----- Texts and their tokens -----

  /** `text` tokenizes to `ts`. */
  predicate Lexes(text: string, ts: seq<Token>) {
    Lex(text) == Ok(ts)
  }

  /** The tokenizer throws inside `text`, whatever follows. */
  ghost predicate Dies(text: string) {
    forall tail :: Lex(text + tail).Err?
  }

  ghost predicate Scans(text: string, ts: seq<Token>, alive: bool) {
    if alive then Lexes(text, ts) else Dies(text)
  }

  lemma Join(a: string, ta: seq<Token>, b: string, tb: seq<Token>)
    requires Lexes(a, ta) && Lexes(b, tb) && SafeBoundary(a, b)
    ensures Lexes(a + b, ta + tb)
  {
    LexCompose(a, b);
  }

  lemma NothingLives()
    ensures !Dies("")
  {
    assert "" + "" == "";
    assert Lex("" + "").Ok?;
  }

  /** Texts meeting at a safe boundary tokenize independently, and one that kills the tokenizer kills it for both. */
  lemma ScanJoin(a: string, ta: seq<Token>, x: bool, b: string, tb: seq<Token>, y: bool)
    requires Scans(a, ta, x) && Scans(b, tb, y) && SafeBoundary(a, b)
    ensures Scans(a + b, ta + tb, x && y)
  {
    if !x {
      forall tail ensures Lex(a + b + tail).Err? {
        assert a + b + tail == a + (b + tail);
      }
    } else if !y {
      NothingLives();
      forall tail ensures Lex(a + b + tail).Err? {
        assert a + b + tail == a + (b + tail);
        assert (b + tail)[0] == b[0];
        LexCompose(a, b + tail);
      }
    } else {
      Join(a, ta, b, tb);
    }
  }

  lemma ScanJoin3(a: string, ta: seq<Token>, x: bool, b: string, tb: seq<Token>, y: bool, c: string, tc: seq<Token>,
      z: bool)
    requires Scans(a, ta, x) && Scans(b, tb, y) && Scans(c, tc, z)
    requires SafeBoundary(a, b) && SafeBoundary(a + b, c)
    ensures Scans(a + b + c, ta + tb + tc, x && y && z)
  {
    ScanJoin(a, ta, x, b, tb, y);
    ScanJoin(a + b, ta + tb, x && y, c, tc, z);
  }

  lemma Join3(a: string, ta: seq<Token>, b: string, tb: seq<Token>, c: string, tc: seq<Token>)
    requires Lexes(a, ta) && Lexes(b, tb) && Lexes(c, tc)
    requires SafeBoundary(a, b) && SafeBoundary(a + b, c)
    ensures Lexes(a + b + c, ta + tb + tc)
  {
    Join(a, ta, b, tb);
    Join(a + b, ta + tb, c, tc);
  }

  /** The number token at the front of an exponential text, and the text from the `e` on. */
  lemma LexMantissa(s: string, tail: string)
    requires Exponential(s)
    ensures var m := Mantissa(s);
      Lex(s + tail) == Then([Token(Number, s[..m])], Lex(s[m..] + tail))
  {
    var m := Mantissa(s);
    assert (s + tail)[1..] == s[1..] + tail;
    SpanAppend(s[1..], tail, IsNumberPart);
    assert (s + tail)[..m] == s[..m] && (s + tail)[m..] == s[m..] + tail;
    assert LexOne(s + tail) == Ok((Token(Number, s[..m]), m));
  }

  /** The `e` is an identifier of its own: a sign follows. */
  lemma LexE(sign: char, rest: string)
    requires sign == '+' || sign == '-'
    ensures Lex("e" + [sign] + rest) == Then([Token(Identifier, "e")], Lex([sign] + rest))
    ensures sign == '+' ==> Lex([sign] + rest) == Err
  {
    var s := "e" + [sign] + rest;
    assert s[1..] == [sign] + rest && s[..1] == "e";
    assert LexOne(s) == Ok((Token(Identifier, "e"), 1));
    if sign == '+' {
      assert LexOne([sign] + rest) == Err;
    }
  }

  lemma ScanExponential(s: string)
    requires Exponential(s)
    ensures Scans(s, DoubleTokens(s), s[Mantissa(s) + 1] == '-')
  {
    hide Lex, DoubleTokens;
    if s[Mantissa(s) + 1] == '-' {
      LexNegativeExponent(s);
    } else {
      forall tail ensures Lex(s + tail).Err? {
        PositiveExponentDies(s, tail);
      }
    }
  }

  lemma ExponentParts(s: string)
    requires Exponential(s)
    ensures var m := Mantissa(s); s[m..] == "e" + [s[m + 1]] + s[m + 2..] && s[m + 1..] == [s[m + 1]] + s[m + 2..]
  {
  }

  lemma LexNegativeExponent(s: string)
    requires Exponential(s) && s[Mantissa(s) + 1] == '-'
    ensures Lexes(s, DoubleTokens(s))
  {
    hide Lex;
    ShapesDiffer(s);
    var m := Mantissa(s);
    var digits := s[m + 2..];
    ExponentParts(s);
    LexMantissa(s, "");
    assert s + "" == s && s[m..] + "" == s[m..];
    LexE('-', digits);
    LexNumber(['-'] + digits);
    var number, e, power := Token(Number, s[..m]), Token(Identifier, "e"), Token(Number, s[m + 1..]);
    assert [number] + ([e] + [power]) == [number, e] + [power];
  }

  lemma PositiveExponentDies(s: string, tail: string)
    requires Exponential(s) && s[Mantissa(s) + 1] == '+'
    ensures Lex(s + tail).Err?
  {
    hide Lex;
    var m := Mantissa(s);
    var digits := s[m + 2..];
    ExponentParts(s);
    LexMantissa(s, tail);
    assert s[m..] + tail == "e" + ['+'] + (digits + tail);
    LexE('+', digits + tail);
  }

  lemma LexMinus(word: string)
    requires IsName(word)
    ensures Lex("-" + word) == Ok([Token(Number, "-"), Token(Identifier, word)])
  {
    var s := "-" + word;
    assert s[1..] == word && s[..1] == "-";
    assert Span(word, IsNumberPart) == 0;
    assert LexOne(s) == Ok((Token(Number, "-"), 1));
    LexName(word);
    assert [Token(Number, "-")] + [Token(Identifier, word)] == [Token(Number, "-"), Token(Identifier, word)];
  }

  lemma ScanNotFinite(s: string)
    requires NotFinite(s)
    ensures Lexes(s, DoubleTokens(s))
  {
    hide Lex;
    ShapesDiffer(s);
    var word := if s[0] == '-' then s[1..] else s;
    assert word == "inf" || word == "nan";
    if s[0] == '-' {
      assert s == "-" + word;
      LexMinus(word);
    } else {
      LexName(word);
    }
  }

  /** The tokens of a printed literal, or the tokenizer's exception. */
  lemma ScanLiteral(fp: FloatText, v: Value)
    requires Shaped(fp, v)
    ensures Scans(SqlLiteral(fp, v), LiteralTokens(fp, v), Alive(fp, v))
    ensures SqlLiteral(fp, v) != ""
  {
    match v
    case Null => LexName("NULL");
    case Int(i) => IntRoundTrip(i); LexNumber(IntText(i));
    case Str(s) => LexQuoted(s);
    case Dbl(bits) =>
      var text := fp.format(bits);
      ShapesDiffer(text);
      if IsNumberText(text) {
        LexNumber(text);
      } else if Exponential(text) {
        ScanExponential(text);
      } else {
        ScanNotFinite(text);
      }
  }

  // ----- Reading tokens back -----

  /** What a literal that is no literal leaves behind: no clause of the grammar goes on from here. */
  predicate Junk(ts: seq<Token>) {
    ts != [] && ts[0].kind == Identifier && (ts[0].lexeme == "e" || ts[0].lexeme == "inf" || ts[0].lexeme == "nan")
  }

  /** A routine read what was printed and stopped after it; or, when that does not read, it threw or stopped at junk. */
  ghost predicate Follows<T>(r: Parsed<T>, read: Result<T>, rest: seq<Token>) {
    if read.Ok? then r == Ok((read.value, rest)) else r.Ok? ==> Junk(r.value.1)
  }

  lemma LiteralReads(fp: FloatText, v: Value, rest: seq<Token>)
    requires Shaped(fp, v)
    ensures Follows(ParseValue(fp, LiteralTokens(fp, v) + rest), ReadAs(fp, v), rest)
  {
    var ts := LiteralTokens(fp, v) + rest;
    if v.Int? {
      IntRoundTrip(v.i);
    }
    if v.Dbl? {
      var text := fp.format(v.bits);
      ShapesDiffer(text);
      if !IsNumberText(text) {
        DoubleReadsNot(fp, text, rest);
      }
    }
    assert |LiteralTokens(fp, v)| == 1 ==> ts[1..] == rest;
  }

  lemma DoubleReadsNot(fp: FloatText, s: string, rest: seq<Token>)
    requires FloatShape(s) && !IsNumberText(s)
    ensures var r := ParseValue(fp, DoubleTokens(s) + rest); r.Ok? ==> Junk(r.value.1)
  {
    var ts := DoubleTokens(s) + rest;
    ShapesDiffer(s);
    if Exponential(s) {
      assert ts[1..][0] == Token(Identifier, "e");
    } else if s[0] == '-' {
      assert ts[1..][0] == Token(Identifier, s[1..]);
      assert s[1..] == "inf" || s[1..] == "nan";
    } else {
      assert |s| == 3;
    }
  }

  /** A literal that reads back is one token. */
  function LiteralToken(fp: FloatText, v: Value): Token {
    match v
    case Null => Token(Identifier, "NULL")
    case Int(i) => Token(Number, IntText(i))
    case Dbl(bits) => Token(Number, fp.format(bits))
    case Str(s) => Token(StringLiteral, s)
  }

  lemma LiteralRoundTrip(fp: FloatText, v: Value, rest: seq<Token>)
    requires Rereads(fp, v)
    ensures LiteralTokens(fp, v) == [LiteralToken(fp, v)]
    ensures Lex(SqlLiteral(fp, v)) == Ok([LiteralToken(fp, v)])
    ensures ParseValue(fp, [LiteralToken(fp, v)] + rest) == Ok((v, rest))
  {
    RereadsExactly(fp, v);
    ScanLiteral(fp, v);
    LiteralReads(fp, v, rest);
  }

  /**
   A double reads back as itself exactly when its text has no exponent, has a point and converts back: the tokenizer and
   the parser accept it as a literal and return its very bits.
   */
  lemma DoubleRereadsExactly(fp: FloatText, bits: Word64)
    requires FloatShape(fp.format(bits))
    ensures Rereads(fp, Dbl(bits)) <==>
      Lex(fp.format(bits)).Ok? && ParseValue(fp, Lex(fp.format(bits)).value + [END]) == Ok((Dbl(bits), [END]))
  {
    var v := Dbl(bits);
    RereadsExactly(fp, v);
    ScanLiteral(fp, v);
    LiteralReads(fp, v, [END]);
    if !Alive(fp, v) {
      assert fp.format(bits) + "" == fp.format(bits);
    }
  }
}
