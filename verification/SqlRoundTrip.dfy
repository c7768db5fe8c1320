/**
 Parsing undoes printing, character by character: the text the executor logs for a statement tokenizes and parses to
 that statement with every literal as it reads back, or to an error exactly when some literal does not read.
 */
module SqlRoundTrip {
  import opened Results
  import opened Values
  import opened Ast
  import opened Lexer
  import opened SqlText
  import opened Grammar
  import opened LiteralText

  function Keyword(s: string): Token {
    Token(Identifier, s)
  }

  lemma LexSpace()
    ensures Lexes(" ", [])
  {
    assert " "[1..] == [];
  }

  lemma LexMark(c: char)
    requires Punctuation(c).Ok?
    ensures Lexes([c], [Token(Punctuation(c).value, [c])])
  {
    var t := Token(Punctuation(c).value, [c]);
    assert LexOne([c]) == Ok((t, 1));
    assert [c][1..] == [];
    ThenEnd([t]);
  }

  /** A name followed by one space. */
  lemma LexWord(w: string)
    requires IsName(w)
    ensures Lexes(w + " ", [Token(Identifier, w)])
  {
    LexName(w);
    LexSpace();
    Join(w, [Token(Identifier, w)], " ", []);
    assert [Token(Identifier, w)] + [] == [Token(Identifier, w)];
  }

  /** A space, a name, a space. */
  lemma LexInfix(w: string)
    requires IsName(w)
    ensures Lexes(" " + w + " ", [Token(Identifier, w)])
  {
    LexWord(w);
    LexSpace();
    Join(" ", [], w + " ", [Token(Identifier, w)]);
    assert [] + [Token(Identifier, w)] == [Token(Identifier, w)];
    assert " " + (w + " ") == " " + w + " ";
  }

  // ----- Predicates -----

  function OpToken(op: CompareOp): Token {
    match op
    case EqualTo => Token(Equal, "=")
    case GreaterThan => Token(Greater, ">")
    case LessThan => Token(Less, "<")
  }

  const OPEN := Token(LeftParen, "(")
  const CLOSE := Token(RightParen, ")")
  const COMMA := Token(Comma, ",")
  const SEMICOLON := Token(Semicolon, ";")

  function PredicateTokens(fp: FloatText, p: Predicate): seq<Token> {
    match p
    case Comparison(column, op, value) => [Keyword(column), OpToken(op)] + LiteralTokens(fp, value)
    case And(l, r) => [OPEN] + PredicateTokens(fp, l) + [Keyword("AND")] + PredicateTokens(fp, r) + [CLOSE]
    case Or(l, r) => [OPEN] + PredicateTokens(fp, l) + [Keyword("OR")] + PredicateTokens(fp, r) + [CLOSE]
  }

  predicate ShapedPredicate(fp: FloatText, p: Predicate) {
    match p
    case Comparison(_, _, value) => Shaped(fp, value)
    case And(l, r) => ShapedPredicate(fp, l) && ShapedPredicate(fp, r)
    case Or(l, r) => ShapedPredicate(fp, l) && ShapedPredicate(fp, r)
  }

  predicate AlivePredicate(fp: FloatText, p: Predicate) {
    match p
    case Comparison(_, _, value) => Alive(fp, value)
    case And(l, r) => AlivePredicate(fp, l) && AlivePredicate(fp, r)
    case Or(l, r) => AlivePredicate(fp, l) && AlivePredicate(fp, r)
  }

  /** The predicate with every literal as it reads back. */
  function PredicateReadAs(fp: FloatText, p: Predicate): Result<Predicate> {
    match p
    case Comparison(column, op, value) =>
      var v :- ReadAs(fp, value);
      Ok(Comparison(column, op, v))
    case And(l, r) =>
      var left :- PredicateReadAs(fp, l);
      var right :- PredicateReadAs(fp, r);
      Ok(And(left, right))
    case Or(l, r) =>
      var left :- PredicateReadAs(fp, l);
      var right :- PredicateReadAs(fp, r);
      Ok(Or(left, right))
  }

  predicate PredicateRereads(fp: FloatText, p: Predicate) {
    match p
    case Comparison(_, _, value) => Rereads(fp, value)
    case And(l, r) => PredicateRereads(fp, l) && PredicateRereads(fp, r)
    case Or(l, r) => PredicateRereads(fp, l) && PredicateRereads(fp, r)
  }

  /**
   A predicate reads back as itself exactly when each of its literals does; one that kills the tokenizer does not read.
   */
  lemma {:induction false} PredicateRereadsExactly(fp: FloatText, p: Predicate)
    ensures PredicateRereads(fp, p) <==> PredicateReadAs(fp, p) == Ok(p)
    ensures PredicateRereads(fp, p) ==> ShapedPredicate(fp, p)
    ensures !AlivePredicate(fp, p) ==> PredicateReadAs(fp, p).Err?
  {
    hide Rereads, ReadAs, Shaped, Alive;
    if p.Comparison? {
      RereadsExactly(fp, p.value);
      DeadReadsNot(fp, p.value);
    } else {
      PredicateRereadsExactly(fp, p.left);
      PredicateRereadsExactly(fp, p.right);
    }
  }

  /** Column names are names and every literal reads back. */
  predicate Printable(fp: FloatText, p: Predicate) {
    NamedPredicate(p) && PredicateRereads(fp, p)
  }

  lemma LexOp(op: CompareOp)
    ensures Lexes(OpText(op) + " ", [OpToken(op)])
  {
    LexMark(OpText(op)[0]);
    LexSpace();
    Join(OpText(op), [OpToken(op)], " ", []);
    assert [OpToken(op)] + [] == [OpToken(op)];
  }

  lemma ScanComparison(fp: FloatText, column: string, op: CompareOp, value: Value)
    requires IsName(column) && Shaped(fp, value)
    ensures Scans(column + " " + OpText(op) + " " + SqlLiteral(fp, value),
                  [Keyword(column), OpToken(op)] + LiteralTokens(fp, value), Alive(fp, value))
  {
    hide Lex, SqlLiteral, LiteralTokens, Alive, Shaped;
    var c, o := Keyword(column), OpToken(op);
    LexWord(column);
    LexOp(op);
    ScanLiteral(fp, value);
    Join(column + " ", [c], OpText(op) + " ", [o]);
    ScanJoin(column + " " + (OpText(op) + " "), [c] + [o], true, SqlLiteral(fp, value), LiteralTokens(fp, value),
        Alive(fp, value));
    assert column + " " + OpText(op) + " " == column + " " + (OpText(op) + " ");
    assert [c] + [o] == [c, o];
  }

  lemma ScanBracketed(l: string, tl: seq<Token>, x: bool, op: string, r: string, tr: seq<Token>, y: bool)
    requires Scans(l, tl, x) && Scans(r, tr, y) && IsName(op)
    ensures Scans("(" + l + (" " + op + " ") + r + ")", [OPEN] + tl + [Keyword(op)] + tr + [CLOSE], x && y)
  {
    hide Lex, Scans;
    LexMark('(');
    LexMark(')');
    LexInfix(op);
    Living("(", [OPEN]);
    Living(")", [CLOSE]);
    Living(" " + op + " ", [Keyword(op)]);
    ScanJoin("(", [OPEN], true, l, tl, x);
    ScanJoin("(" + l, [OPEN] + tl, x, " " + op + " ", [Keyword(op)], true);
    ScanJoin("(" + l + (" " + op + " "), [OPEN] + tl + [Keyword(op)], x, r, tr, y);
    ScanJoin("(" + l + (" " + op + " ") + r, [OPEN] + tl + [Keyword(op)] + tr, x && y, ")", [CLOSE], true);
  }

  lemma Living(text: string, ts: seq<Token>)
    requires Lexes(text, ts)
    ensures Scans(text, ts, true)
  {
  }

  lemma {:induction false} ScanPredicate(fp: FloatText, p: Predicate)
    requires NamedPredicate(p) && ShapedPredicate(fp, p)
    ensures Scans(PredicateText(fp, p), PredicateTokens(fp, p), AlivePredicate(fp, p))
  {
    hide Scans, Alive, Shaped, LiteralTokens, SqlLiteral, IsName;
    match p
    case Comparison(column, op, value) =>
      ScanComparison(fp, column, op, value);
    case And(l, r) =>
      ScanPredicate(fp, l);
      ScanPredicate(fp, r);
      OperatorNames();
      ScanBracketed(PredicateText(fp, l), PredicateTokens(fp, l), AlivePredicate(fp, l), "AND",
                    PredicateText(fp, r), PredicateTokens(fp, r), AlivePredicate(fp, r));
      assert " " + "AND" + " " == " AND ";
    case Or(l, r) =>
      ScanPredicate(fp, l);
      ScanPredicate(fp, r);
      OperatorNames();
      ScanBracketed(PredicateText(fp, l), PredicateTokens(fp, l), AlivePredicate(fp, l), "OR",
                    PredicateText(fp, r), PredicateTokens(fp, r), AlivePredicate(fp, r));
      assert " " + "OR" + " " == " OR ";
  }

  lemma OperatorNames()
    ensures IsName("AND") && IsName("OR")
  {
  }

  // ----- Predicates read back -----

  /** The token stops both operator loops. */
  predicate Stops(ts: seq<Token>) {
    ts != [] && !At(ts, Identifier, "AND") && !At(ts, Identifier, "OR")
  }

  /** Junk is no operator, no bracket, no clause and no end. */
  lemma JunkStops(ts: seq<Token>)
    requires Junk(ts)
    ensures Stops(ts) && !At(ts, Identifier, "WHERE")
    ensures ts[0].kind == Identifier
  {
    assert "inf"[0] != "AND"[0] && "nan"[0] != "AND"[0];
    DifferAt("inf", "AND", 0);
    DifferAt("nan", "AND", 0);
  }

  lemma ComparisonReads(fp: FloatText, column: string, op: CompareOp, value: Value, rest: seq<Token>)
    requires Shaped(fp, value)
    ensures Follows(ParsePrimary(fp, [Keyword(column), OpToken(op)] + LiteralTokens(fp, value) + rest),
                    PredicateReadAs(fp, Comparison(column, op, value)), rest)
  {
    hide ParseValue, ReadAs, LiteralTokens, Shaped, Junk;
    var values := LiteralTokens(fp, value) + rest;
    var ts := [Keyword(column), OpToken(op)] + LiteralTokens(fp, value) + rest;
    assert ts == [Keyword(column), OpToken(op)] + values;
    assert ts[1..][0] == OpToken(op);
    assert ts[1..][1..] == values;
    LiteralReads(fp, value, rest);
  }

  /** The bracketed operator over what its operands read as. */
  function Combined(conjunction: bool, left: Result<Predicate>, right: Result<Predicate>): Result<Predicate> {
    var l :- left;
    var r :- right;
    Ok(if conjunction then And(l, r) else Or(l, r))
  }

  /** An expression cut short by junk is cut short there. */
  lemma JunkInside(fp: FloatText, ts: seq<Token>)
    requires ParsePrimary(fp, ts).Ok? ==> Junk(ParsePrimary(fp, ts).value.1)
    ensures ParseAnd(fp, ts).Ok? ==> Junk(ParseAnd(fp, ts).value.1)
    ensures ParseOr(fp, ts).Ok? ==> Junk(ParseOr(fp, ts).value.1)
  {
    hide Junk, ParsePrimary, Clean, NamedPredicate;
    if ParsePrimary(fp, ts).Ok? {
      var first := ParsePrimary(fp, ts).value;
      JunkStops(first.1);
      assert AndTail(fp, first.0, first.1) == Ok(first);
      assert OrTail(fp, first.0, first.1) == Ok(first);
    }
  }

  lemma AndInside(fp: FloatText, l: Predicate, right: Result<Predicate>, ts: seq<Token>, afterL: seq<Token>,
      tr: seq<Token>, rest: seq<Token>)
    requires ParsePrimary(fp, ts) == Ok((l, afterL)) && afterL == [Keyword("AND")] + tr
    requires Follows(ParsePrimary(fp, tr), right, rest) && Stops(rest)
    ensures Follows(ParseOr(fp, ts), Combined(true, Ok(l), right), rest)
  {
    hide Junk, Clean, NamedPredicate;
    assert afterL[1..] == tr;
    var r := ParsePrimary(fp, tr);
    if r.Ok? {
      if right.Err? { JunkStops(r.value.1); }
      var both := And(l, r.value.0);
      assert AndTail(fp, both, r.value.1) == Ok((both, r.value.1));
      assert AndTail(fp, l, afterL) == Ok((both, r.value.1));
      assert OrTail(fp, both, r.value.1) == Ok((both, r.value.1));
    } else {
      assert AndTail(fp, l, afterL).Err?;
    }
  }

  lemma OrInside(fp: FloatText, l: Predicate, right: Result<Predicate>, ts: seq<Token>, afterL: seq<Token>,
      tr: seq<Token>, rest: seq<Token>)
    requires ParsePrimary(fp, ts) == Ok((l, afterL)) && afterL == [Keyword("OR")] + tr
    requires Follows(ParsePrimary(fp, tr), right, rest) && Stops(rest)
    ensures Follows(ParseOr(fp, ts), Combined(false, Ok(l), right), rest)
  {
    hide Junk, Clean, NamedPredicate;
    assert afterL[1..] == tr;
    assert !At(afterL, Identifier, "AND");
    assert AndTail(fp, l, afterL) == Ok((l, afterL));
    var r := ParsePrimary(fp, tr);
    if r.Ok? {
      if right.Err? { JunkStops(r.value.1); }
      assert AndTail(fp, r.value.0, r.value.1) == Ok(r.value);
      assert ParseAnd(fp, tr) == r;
      var both := Or(l, r.value.0);
      assert OrTail(fp, both, r.value.1) == Ok((both, r.value.1));
      assert OrTail(fp, l, afterL) == Ok((both, r.value.1));
    } else {
      assert ParseAnd(fp, tr).Err?;
      assert OrTail(fp, l, afterL).Err?;
    }
  }

  /** A bracketed operator applied to two primaries is a primary. */
  lemma BracketReads(fp: FloatText, conjunction: bool, left: Result<Predicate>, tl: seq<Token>,
      right: Result<Predicate>, tr: seq<Token>, rest: seq<Token>)
    requires var word := Keyword(if conjunction then "AND" else "OR");
      var afterR := [CLOSE] + rest;
      && Follows(ParsePrimary(fp, tl + ([word] + (tr + afterR))), left, [word] + (tr + afterR))
      && Follows(ParsePrimary(fp, tr + afterR), right, afterR)
    ensures Follows(ParsePrimary(fp, [OPEN] + tl + [Keyword(if conjunction then "AND" else "OR")] + tr + [CLOSE] +
        rest),
                    Combined(conjunction, left, right), rest)
  {
    hide Junk, ParseOr, Clean, NamedPredicate;
    var word := Keyword(if conjunction then "AND" else "OR");
    var afterR := [CLOSE] + rest;
    var afterL := [word] + (tr + afterR);
    var ts := [OPEN] + tl + [word] + tr + [CLOSE] + rest;
    BracketShape(tl, [word], tr, rest);
    assert Stops(afterR);
    if left.Err? {
      JunkInside(fp, ts[1..]);
    } else if conjunction {
      AndInside(fp, left.value, right, ts[1..], afterL, tr + afterR, afterR);
    } else {
      OrInside(fp, left.value, right, ts[1..], afterL, tr + afterR, afterR);
    }
    CloseBracket(fp, Combined(conjunction, left, right), ts, rest);
  }

  lemma BracketShape(tl: seq<Token>, op: seq<Token>, tr: seq<Token>, rest: seq<Token>)
    ensures var ts := [OPEN] + tl + op + tr + [CLOSE] + rest;
      ts[0] == OPEN && ts[1..] == tl + (op + (tr + ([CLOSE] + rest)))
  {
  }

  lemma CloseBracket(fp: FloatText, p: Result<Predicate>, ts: seq<Token>, rest: seq<Token>)
    requires ts != [] && ts[0] == OPEN && Follows(ParseOr(fp, ts[1..]), p, [CLOSE] + rest)
    ensures Follows(ParsePrimary(fp, ts), p, rest)
  {
    hide ParseOr, Clean, NamedPredicate;
    assert ([CLOSE] + rest)[1..] == rest;
  }

  /** A printed predicate is read back as one primary, whatever follows it. */
  lemma {:induction false} PrimaryReads(fp: FloatText, p: Predicate, rest: seq<Token>)
    requires ShapedPredicate(fp, p)
    ensures Follows(ParsePrimary(fp, PredicateTokens(fp, p) + rest), PredicateReadAs(fp, p), rest)
  {
    hide ParsePrimary, Shaped, LiteralTokens, ReadAs, Follows;
    match p
    case Comparison(column, op, value) =>
      ComparisonReads(fp, column, op, value, rest);
    case And(l, r) =>
      var tr := PredicateTokens(fp, r);
      PrimaryReads(fp, l, [Keyword("AND")] + (tr + ([CLOSE] + rest)));
      PrimaryReads(fp, r, [CLOSE] + rest);
      BracketReads(fp, true, PredicateReadAs(fp, l), PredicateTokens(fp, l), PredicateReadAs(fp, r), tr, rest);
    case Or(l, r) =>
      var tr := PredicateTokens(fp, r);
      PrimaryReads(fp, l, [Keyword("OR")] + (tr + ([CLOSE] + rest)));
      PrimaryReads(fp, r, [CLOSE] + rest);
      BracketReads(fp, false, PredicateReadAs(fp, l), PredicateTokens(fp, l), PredicateReadAs(fp, r), tr, rest);
  }

  /** When every literal reads back, the very predicate returns. */
  lemma PrimaryRoundTrip(fp: FloatText, p: Predicate, rest: seq<Token>)
    requires Printable(fp, p)
    ensures ParsePrimary(fp, PredicateTokens(fp, p) + rest) == Ok((p, rest))
  {
    hide ParsePrimary;
    PredicateRereadsExactly(fp, p);
    PrimaryReads(fp, p, rest);
  }

  lemma PredicateReads(fp: FloatText, p: Predicate, rest: seq<Token>)
    requires ShapedPredicate(fp, p) && Stops(rest)
    ensures Follows(ParseOr(fp, PredicateTokens(fp, p) + rest), PredicateReadAs(fp, p), rest)
  {
    hide ParsePrimary, Junk, PredicateReadAs, PredicateTokens;
    PrimaryReads(fp, p, rest);
    var read := PredicateReadAs(fp, p);
    if read.Ok? {
      assert AndTail(fp, read.value, rest) == Ok((read.value, rest));
      assert OrTail(fp, read.value, rest) == Ok((read.value, rest));
    } else {
      JunkInside(fp, PredicateTokens(fp, p) + rest);
    }
  }

  // ----- Lists -----

  function ColumnTokens(c: Column): seq<Token> {
    [Token(Identifier, c.name), Keyword(TypeText(c.ctype))] + if c.nullable then [Keyword("NULL")] else []
  }

  function ColumnListTokens(columns: seq<Column>): seq<Token> {
    if columns == [] then []
    else if |columns| == 1 then ColumnTokens(columns[0])
    else ColumnTokens(columns[0]) + [COMMA] + ColumnListTokens(columns[1..])
  }

  function RowTokens(fp: FloatText, row: Row): seq<Token> {
    if row == [] then []
    else if |row| == 1 then LiteralTokens(fp, row[0])
    else LiteralTokens(fp, row[0]) + [COMMA] + RowTokens(fp, row[1..])
  }

  predicate PrintableRow(fp: FloatText, row: Row) {
    forall i :: 0 <= i < |row| ==> Rereads(fp, row[i])
  }

  predicate ShapedRow(fp: FloatText, row: Row) {
    forall i :: 0 <= i < |row| ==> Shaped(fp, row[i])
  }

  predicate AliveRow(fp: FloatText, row: Row) {
    forall i :: 0 <= i < |row| ==> Alive(fp, row[i])
  }

  /** The row with every literal as it reads back. */
  function RowReadAs(fp: FloatText, row: Row): Result<Row> {
    if row == [] then Ok([])
    else
      var v :- ReadAs(fp, row[0]);
      var rest :- RowReadAs(fp, row[1..]);
      Ok([v] + rest)
  }

  lemma {:induction false} RowReadsAsItself(fp: FloatText, row: Row)
    ensures PrintableRow(fp, row) <==> RowReadAs(fp, row) == Ok(row)
    ensures PrintableRow(fp, row) ==> ShapedRow(fp, row)
    ensures !AliveRow(fp, row) ==> RowReadAs(fp, row).Err?
  {
    hide Rereads, ReadAs, Shaped, Alive;
    if row != [] {
      var rest := row[1..];
      RowReadsAsItself(fp, rest);
      RereadsExactly(fp, row[0]);
      DeadReadsNot(fp, row[0]);
      assert row == [row[0]] + rest;
      assert forall i :: 0 < i < |row| ==> row[i] == rest[i - 1];
      assert PrintableRow(fp, row) <==> Rereads(fp, row[0]) && PrintableRow(fp, rest);
      assert AliveRow(fp, row) <==> Alive(fp, row[0]) && AliveRow(fp, rest);
    }
  }

  lemma LexColumn(c: Column)
    requires IsName(c.name)
    ensures Lexes(ColumnText(c), ColumnTokens(c))
  {
    hide Lex;
    var name, ctype := Token(Identifier, c.name), Keyword(TypeText(c.ctype));
    LexWord(c.name);
    LexName(TypeText(c.ctype));
    if c.nullable {
      LexSpace();
      LexName("NULL");
      Join(" ", [], "NULL", [Keyword("NULL")]);
      assert " " + "NULL" == " NULL" && [] + [Keyword("NULL")] == [Keyword("NULL")];
      Join3(c.name + " ", [name], TypeText(c.ctype), [ctype], " NULL", [Keyword("NULL")]);
      assert [name] + [ctype] + [Keyword("NULL")] == ColumnTokens(c);
    } else {
      Join(c.name + " ", [name], TypeText(c.ctype), [ctype]);
      assert [name] + [ctype] == ColumnTokens(c);
      assert c.name + " " + TypeText(c.ctype) + "" == c.name + " " + TypeText(c.ctype);
    }
  }

  lemma LexCommaSpace()
    ensures Lexes(", ", [COMMA])
  {
    LexMark(',');
    LexSpace();
    Join(",", [COMMA], " ", []);
    assert "," + " " == ", " && [COMMA] + [] == [COMMA];
  }

  lemma {:induction false} LexColumnList(columns: seq<Column>)
    requires columns != [] && NamedColumns(columns)
    ensures Lexes(CommaList(ColumnTexts(columns)), ColumnListTokens(columns))
  {
    hide Lex;
    var texts := ColumnTexts(columns);
    LexColumn(columns[0]);
    if |columns| > 1 {
      assert texts[1..] == ColumnTexts(columns[1..]);
      LexColumnList(columns[1..]);
      LexCommaSpace();
      Join3(texts[0], ColumnTokens(columns[0]), ", ", [COMMA], CommaList(texts[1..]), ColumnListTokens(columns[1..]));
    }
  }

  lemma {:induction false} ScanRow(fp: FloatText, row: Row)
    requires row != [] && ShapedRow(fp, row)
    ensures Scans(CommaList(Literals(fp, row)), RowTokens(fp, row), AliveRow(fp, row))
  {
    hide Lex, Scans, Alive, Shaped, LiteralTokens, SqlLiteral;
    var texts := Literals(fp, row);
    ScanLiteral(fp, row[0]);
    if |row| > 1 {
      var rest := row[1..];
      assert texts[1..] == Literals(fp, rest);
      ScanRow(fp, rest);
      LexCommaSpace();
      Living(", ", [COMMA]);
      ScanJoin3(texts[0], LiteralTokens(fp, row[0]), Alive(fp, row[0]), ", ", [COMMA], true,
                CommaList(texts[1..]), RowTokens(fp, rest), AliveRow(fp, rest));
      assert forall i :: 0 < i < |row| ==> row[i] == rest[i - 1];
      assert AliveRow(fp, row) <==> Alive(fp, row[0]) && AliveRow(fp, rest);
    }
  }

  lemma TypeRoundTrip(t: ColumnType)
    requires !t.OtherType?
    ensures ColumnTypeFromText(TypeText(t)) == Some(t)
  {
    var text := TypeText(t);
    assert Uppercase(text) == text;
    assert "DOUBLE"[0] != "STRING"[0];
  }

  lemma ColumnRoundTrip(c: Column, rest: seq<Token>)
    requires !c.ctype.OtherType? && rest != [] && rest[0].kind != Identifier
    ensures ParseColumn(ColumnTokens(c) + rest) == Ok((c, rest))
  {
    var ts := ColumnTokens(c) + rest;
    TypeRoundTrip(c.ctype);
    assert ts[1..][0] == Keyword(TypeText(c.ctype));
    var tail := if c.nullable then [Keyword("NULL")] + rest else rest;
    assert ts[1..][1..] == tail;
    if c.nullable {
      assert |"NULL"| != |"NOT"|;
      assert tail[1..] == rest;
    }
  }

  lemma Regroup(a: seq<Token>, b: seq<Token>, c: seq<Token>, d: seq<Token>)
    ensures (a + b + c) + d == a + (b + (c + d))
  {
  }

  /** One turn of the `do ... while (match(Comma))` loop over columns. */
  lemma ColumnsStep(ts: seq<Token>, c: Column, after: seq<Token>)
    requires ParseColumn(ts) == Ok((c, after)) && after != []
    ensures after[0] == CLOSE ==> ParseColumns(ts) == Ok(([c], after))
    ensures after[0] == COMMA && ParseColumns(after[1..]).Ok? ==>
      ParseColumns(ts) == Ok(([c] + ParseColumns(after[1..]).value.0, ParseColumns(after[1..]).value.1))
  {
    hide ParseColumn;
  }

  lemma {:induction false} ColumnListRoundTrip(columns: seq<Column>, close: seq<Token>)
    requires columns != [] && NamedColumns(columns) && close != [] && close[0] == CLOSE
    ensures ParseColumns(ColumnListTokens(columns) + close) == Ok((columns, close))
  {
    hide ParseColumns, ParseColumn, ColumnTokens;
    if |columns| == 1 {
      ColumnRoundTrip(columns[0], close);
      ColumnsStep(ColumnTokens(columns[0]) + close, columns[0], close);
      assert [columns[0]] == columns;
    } else {
      var tail := ColumnListTokens(columns[1..]) + close;
      ColumnListRoundTrip(columns[1..], close);
      ColumnRoundTrip(columns[0], [COMMA] + tail);
      var ts := ColumnTokens(columns[0]) + ([COMMA] + tail);
      Regroup(ColumnTokens(columns[0]), [COMMA], ColumnListTokens(columns[1..]), close);
      ColumnsStep(ts, columns[0], [COMMA] + tail);
      assert ([COMMA] + tail)[1..] == tail;
      assert [columns[0]] + columns[1..] == columns;
    }
  }

  lemma ValuesReadOn(fp: FloatText, ts: seq<Token>, read: Result<Value>, after: seq<Token>)
    requires after != [] && Follows(ParseValue(fp, ts), read, after)
    ensures read.Err? ==> Follows<Row>(ParseValues(fp, ts), Err, after)
    ensures read.Ok? && after[0] == CLOSE ==> ParseValues(fp, ts) == Ok(([read.value], after))
    ensures read.Ok? && after[0] == COMMA ==>
      var more := ParseValues(fp, after[1..]);
      ParseValues(fp, ts) == if more.Ok? then Ok(([read.value] + more.value.0, more.value.1)) else Err
  {
    hide ParseValue, Junk;
    if read.Err? && ParseValue(fp, ts).Ok? {
      JunkStops(ParseValue(fp, ts).value.1);
    }
  }

  lemma {:induction false} ValuesRead(fp: FloatText, row: Row, close: seq<Token>)
    requires row != [] && ShapedRow(fp, row) && close != [] && close[0] == CLOSE
    ensures Follows(ParseValues(fp, RowTokens(fp, row) + close), RowReadAs(fp, row), close)
  {
    hide ParseValues, ParseValue, LiteralTokens, ReadAs, Shaped, Junk;
    var first := ReadAs(fp, row[0]);
    if |row| == 1 {
      LiteralReads(fp, row[0], close);
      ValuesReadOn(fp, LiteralTokens(fp, row[0]) + close, first, close);
      assert RowReadAs(fp, row[1..]) == Ok([]);
      if first.Ok? { assert [first.value] + [] == [first.value]; }
    } else {
      var tail := RowTokens(fp, row[1..]) + close;
      ValuesRead(fp, row[1..], close);
      LiteralReads(fp, row[0], [COMMA] + tail);
      Regroup(LiteralTokens(fp, row[0]), [COMMA], RowTokens(fp, row[1..]), close);
      ValuesReadOn(fp, LiteralTokens(fp, row[0]) + ([COMMA] + tail), first, [COMMA] + tail);
      assert ([COMMA] + tail)[1..] == tail;
    }
  }

  // ----- Statements -----

  function WhereTokens(fp: FloatText, where: Option<Predicate>): seq<Token> {
    if where.Some? then [Keyword("WHERE")] + PredicateTokens(fp, where.value) else []
  }

  function WhereReadAs(fp: FloatText, where: Option<Predicate>): Result<Option<Predicate>> {
    if where.None? then Ok(None)
    else
      var p :- PredicateReadAs(fp, where.value);
      Ok(Some(p))
  }

  predicate ShapedWhere(fp: FloatText, where: Option<Predicate>) {
    where.Some? ==> ShapedPredicate(fp, where.value)
  }

  predicate AliveWhere(fp: FloatText, where: Option<Predicate>) {
    where.Some? ==> AlivePredicate(fp, where.value)
  }

  function CreateTableTokens(name: string, columns: seq<Column>): seq<Token> {
    [Keyword("CREATE"), Keyword("TABLE"), Keyword(name), OPEN] + ColumnListTokens(columns) + [CLOSE, SEMICOLON]
  }

  function InsertTokens(fp: FloatText, table: string, row: Row): seq<Token> {
    [Keyword("INSERT"), Keyword("INTO"), Keyword(table), Keyword("VALUES"), OPEN] + RowTokens(fp, row) +
        [CLOSE, SEMICOLON]
  }

  function UpdateTokens(fp: FloatText, table: string, column: string, value: Value,
      where: Option<Predicate>): seq<Token> {
    [Keyword("UPDATE"), Keyword(table), Keyword("SET"), Keyword(column), OpToken(EqualTo)] + LiteralTokens(fp, value)
    + WhereTokens(fp, where) + [SEMICOLON]
  }

  function DeleteTokens(fp: FloatText, table: string, where: Option<Predicate>): seq<Token> {
    [Keyword("DELETE"), Keyword("FROM"), Keyword(table)] + WhereTokens(fp, where) + [SEMICOLON]
  }

  function CreateIndexTokens(name: string, table: string, column: string): seq<Token> {
    [Keyword("CREATE"), Keyword("INDEX"), Keyword(name), Keyword("ON"), Keyword(table), OPEN, Keyword(column), CLOSE,
        SEMICOLON]
  }

  function DropTableTokens(name: string): seq<Token> {
    [Keyword("DROP"), Keyword("TABLE"), Keyword(name), SEMICOLON]
  }

  function RenameTableTokens(oldName: string, newName: string): seq<Token> {
    [Keyword("RENAME"), Keyword("TABLE"), Keyword(oldName), Keyword("TO"), Keyword(newName), SEMICOLON]
  }

  /** Two keywords, each followed by a space. */
  lemma LexKeywords(a: string, b: string)
    requires IsName(a) && IsName(b)
    ensures Lexes(a + " " + (b + " "), [Keyword(a), Keyword(b)])
  {
    hide Lex;
    LexWord(a);
    LexWord(b);
    Join(a + " ", [Keyword(a)], b + " ", [Keyword(b)]);
    assert [Keyword(a)] + [Keyword(b)] == [Keyword(a), Keyword(b)];
  }

  lemma LexClose()
    ensures Lexes(");", [CLOSE, SEMICOLON])
  {
    hide Lex;
    LexMark(')');
    LexMark(';');
    Join(")", [CLOSE], ";", [SEMICOLON]);
    assert ")" + ";" == ");" && [CLOSE] + [SEMICOLON] == [CLOSE, SEMICOLON];
  }

  lemma ScanWhere(fp: FloatText, where: Option<Predicate>)
    requires NamedWhere(where) && ShapedWhere(fp, where)
    ensures Scans(WhereText(fp, where), WhereTokens(fp, where), AliveWhere(fp, where))
    ensures WhereText(fp, where) == "" || WhereText(fp, where)[0] == ' '
  {
    hide Lex, Scans, PredicateText, PredicateTokens, ShapedPredicate, AlivePredicate, NamedPredicate;
    if where.Some? {
      LexInfix("WHERE");
      assert " " + "WHERE" + " " == " WHERE ";
      Living(" WHERE ", [Keyword("WHERE")]);
      ScanPredicate(fp, where.value);
      ScanJoin(" WHERE ", [Keyword("WHERE")], true, PredicateText(fp, where.value), PredicateTokens(fp, where.value),
          AlivePredicate(fp, where.value));
    } else {
      LexNothing();
      Living("", []);
    }
  }

  lemma LexNothing()
    ensures Lexes("", [])
  {
  }

  lemma LexCreateTableHead(name: string)
    requires IsName(name)
    ensures Lexes("CREATE TABLE " + name + " (", [Keyword("CREATE"), Keyword("TABLE"), Keyword(name), OPEN])
  {
    hide Lex;
    LexSpaceOpen();
    LexKeywords("CREATE", "TABLE");
    LexName(name);
    assert "CREATE" + " " + ("TABLE" + " ") == "CREATE TABLE ";
    Join3("CREATE TABLE ", [Keyword("CREATE"), Keyword("TABLE")], name, [Keyword(name)], " (", [OPEN]);
    assert [Keyword("CREATE"), Keyword("TABLE")] + [Keyword(name)] + [OPEN]
        == [Keyword("CREATE"), Keyword("TABLE"), Keyword(name), OPEN];
  }

  lemma LexCreateTable(name: string, columns: seq<Column>)
    requires IsName(name) && columns != [] && NamedColumns(columns)
    ensures Lexes(CreateTableSql(name, columns), CreateTableTokens(name, columns))
  {
    hide Lex, CommaList, ColumnListTokens, ColumnTexts, NamedColumns, IsName;
    LexCreateTableHead(name);
    LexColumnList(columns);
    LexClose();
    Join3("CREATE TABLE " + name + " (", [Keyword("CREATE"), Keyword("TABLE"), Keyword(name), OPEN],
          CommaList(ColumnTexts(columns)), ColumnListTokens(columns), ");", [CLOSE, SEMICOLON]);
  }

  lemma LexSpaceOpen()
    ensures Lexes(" (", [OPEN])
  {
    hide Lex;
    LexSpace();
    LexMark('(');
    Join(" ", [], "(", [OPEN]);
    assert " " + "(" == " (" && [] + [OPEN] == [OPEN];
  }

  lemma LexValuesOpen()
    ensures Lexes(" VALUES (", [Keyword("VALUES"), OPEN])
  {
    hide Lex;
    LexInfix("VALUES");
    LexMark('(');
    Join(" " + "VALUES" + " ", [Keyword("VALUES")], "(", [OPEN]);
    assert " " + "VALUES" + " " + "(" == " VALUES (";
    assert [Keyword("VALUES")] + [OPEN] == [Keyword("VALUES"), OPEN];
  }

  lemma LexInsertHead(table: string)
    requires IsName(table)
    ensures Lexes("INSERT INTO " + table + " VALUES (",
        [Keyword("INSERT"), Keyword("INTO"), Keyword(table), Keyword("VALUES"), OPEN])
  {
    hide Lex;
    LexKeywords("INSERT", "INTO");
    LexName(table);
    LexValuesOpen();
    assert "INSERT" + " " + ("INTO" + " ") == "INSERT INTO ";
    Join3("INSERT INTO ", [Keyword("INSERT"), Keyword("INTO")], table, [Keyword(table)], " VALUES (",
        [Keyword("VALUES"), OPEN]);
    assert [Keyword("INSERT"), Keyword("INTO")] + [Keyword(table)] + [Keyword("VALUES"), OPEN]
        == [Keyword("INSERT"), Keyword("INTO"), Keyword(table), Keyword("VALUES"), OPEN];
  }

  lemma ScanInsert(fp: FloatText, table: string, row: Row)
    requires IsName(table) && row != [] && ShapedRow(fp, row)
    ensures Scans(InsertSql(fp, table, row), InsertTokens(fp, table, row), AliveRow(fp, row))
  {
    hide Lex, CommaList, RowTokens, Scans, ShapedRow, AliveRow, Literals, IsName;
    var head, th := "INSERT INTO " + table + " VALUES (",
        [Keyword("INSERT"), Keyword("INTO"), Keyword(table), Keyword("VALUES"), OPEN];
    LexInsertHead(table);
    Living(head, th);
    ScanRow(fp, row);
    LexClose();
    Living(");", [CLOSE, SEMICOLON]);
    ScanJoin3(head, th, true, CommaList(Literals(fp, row)), RowTokens(fp, row), AliveRow(fp, row), ");",
        [CLOSE, SEMICOLON], true);
  }

  lemma LexUpdateHead(table: string, column: string)
    requires IsName(table) && IsName(column)
    ensures Lexes("UPDATE " + table + " SET " + column + " = ",
                  [Keyword("UPDATE"), Keyword(table), Keyword("SET"), Keyword(column), OpToken(EqualTo)])
  {
    hide Lex;
    LexKeywords("UPDATE", table);
    LexKeywords("SET", column);
    LexOp(EqualTo);
    Join3("UPDATE" + " " + (table + " "), [Keyword("UPDATE"), Keyword(table)], "SET" + " " + (column + " "),
          [Keyword("SET"), Keyword(column)], OpText(EqualTo) + " ", [OpToken(EqualTo)]);
    assert "UPDATE" + " " + (table + " ") + ("SET" + " " + (column + " ")) + (OpText(EqualTo) + " ")
        == "UPDATE " + table + " SET " + column + " = ";
    assert [Keyword("UPDATE"), Keyword(table)] + [Keyword("SET"), Keyword(column)] + [OpToken(EqualTo)]
        == [Keyword("UPDATE"), Keyword(table), Keyword("SET"), Keyword(column), OpToken(EqualTo)];
  }

  lemma ScanUpdate(fp: FloatText, table: string, column: string, value: Value, where: Option<Predicate>)
    requires IsName(table) && IsName(column) && Shaped(fp, value) && NamedWhere(where) && ShapedWhere(fp, where)
    ensures Scans(UpdateSql(fp, table, column, value, where), UpdateTokens(fp, table, column, value, where),
                  Alive(fp, value) && AliveWhere(fp, where))
  {
    hide Lex, SqlLiteral, LiteralTokens, WhereTokens, WhereText, Scans, Shaped, Alive, IsName, AliveWhere, ShapedWhere,
        NamedWhere;
    LexUpdateHead(table, column);
    ScanLiteral(fp, value);
    ScanWhere(fp, where);
    LexMark(';');
    var head := "UPDATE " + table + " SET " + column + " = ";
    var th := [Keyword("UPDATE"), Keyword(table), Keyword("SET"), Keyword(column), OpToken(EqualTo)];
    Living(head, th);
    Living(";", [SEMICOLON]);
    var literal, tl := SqlLiteral(fp, value), LiteralTokens(fp, value);
    ScanJoin(head, th, true, literal, tl, Alive(fp, value));
    ScanJoin3(head + literal, th + tl, Alive(fp, value), WhereText(fp, where), WhereTokens(fp, where),
        AliveWhere(fp, where), ";", [SEMICOLON], true);
  }

  lemma ScanDelete(fp: FloatText, table: string, where: Option<Predicate>)
    requires IsName(table) && NamedWhere(where) && ShapedWhere(fp, where)
    ensures Scans(DeleteSql(fp, table, where), DeleteTokens(fp, table, where), AliveWhere(fp, where))
  {
    hide Lex, Scans, WhereTokens, WhereText, AliveWhere, ShapedWhere, NamedWhere;
    LexKeywords("DELETE", "FROM");
    LexName(table);
    ScanWhere(fp, where);
    LexMark(';');
    assert "DELETE" + " " + ("FROM" + " ") == "DELETE FROM ";
    Join("DELETE FROM ", [Keyword("DELETE"), Keyword("FROM")], table, [Keyword(table)]);
    var th := [Keyword("DELETE"), Keyword("FROM")] + [Keyword(table)];
    Living("DELETE FROM " + table, th);
    Living(";", [SEMICOLON]);
    ScanJoin3("DELETE FROM " + table, th, true, WhereText(fp, where), WhereTokens(fp, where), AliveWhere(fp, where),
        ";", [SEMICOLON], true);
    assert th == [Keyword("DELETE"), Keyword("FROM"), Keyword(table)];
  }

  lemma LexCreateIndex(name: string, table: string, column: string)
    requires IsName(name) && IsName(table) && IsName(column)
    ensures Lexes(CreateIndexSql(name, table, column), CreateIndexTokens(name, table, column))
  {
    hide Lex;
    LexKeywords("CREATE", "INDEX");
    LexName(name);
    LexInfix("ON");
    LexName(table);
    LexMark('(');
    LexName(column);
    LexClose();
    assert "CREATE" + " " + ("INDEX" + " ") == "CREATE INDEX " && " " + "ON" + " " == " ON ";
    var head, th := "CREATE INDEX " + name + " ON ",
        [Keyword("CREATE"), Keyword("INDEX")] + [Keyword(name)] + [Keyword("ON")];
    Join3("CREATE INDEX ", [Keyword("CREATE"), Keyword("INDEX")], name, [Keyword(name)], " ON ", [Keyword("ON")]);
    Join3(head, th, table, [Keyword(table)], "(", [OPEN]);
    Join3(head + table + "(", th + [Keyword(table)] + [OPEN], column, [Keyword(column)], ");", [CLOSE, SEMICOLON]);
    assert th + [Keyword(table)] + [OPEN] + [Keyword(column)] + [CLOSE, SEMICOLON] ==
        CreateIndexTokens(name, table, column);
  }

  lemma LexDropTable(name: string)
    requires IsName(name)
    ensures Lexes(DropTableSql(name), DropTableTokens(name))
  {
    hide Lex;
    LexKeywords("DROP", "TABLE");
    LexName(name);
    LexMark(';');
    assert "DROP" + " " + ("TABLE" + " ") == "DROP TABLE ";
    Join3("DROP TABLE ", [Keyword("DROP"), Keyword("TABLE")], name, [Keyword(name)], ";", [SEMICOLON]);
    assert [Keyword("DROP"), Keyword("TABLE")] + [Keyword(name)] + [SEMICOLON] == DropTableTokens(name);
  }

  lemma LexRenameTable(oldName: string, newName: string)
    requires IsName(oldName) && IsName(newName)
    ensures Lexes(RenameTableSql(oldName, newName), RenameTableTokens(oldName, newName))
  {
    hide Lex;
    LexKeywords("RENAME", "TABLE");
    LexName(oldName);
    LexInfix("TO");
    LexName(newName);
    LexMark(';');
    assert "RENAME" + " " + ("TABLE" + " ") == "RENAME TABLE " && " " + "TO" + " " == " TO ";
    var head, th := "RENAME TABLE " + oldName + " TO ",
        [Keyword("RENAME"), Keyword("TABLE")] + [Keyword(oldName)] + [Keyword("TO")];
    Join3("RENAME TABLE ", [Keyword("RENAME"), Keyword("TABLE")], oldName, [Keyword(oldName)], " TO ", [Keyword("TO")]);
    Join3(head, th, newName, [Keyword(newName)], ";", [SEMICOLON]);
    assert th + [Keyword(newName)] + [SEMICOLON] == RenameTableTokens(oldName, newName);
  }

  // ----- Parsing the tokens back -----

  lemma DifferAt(a: string, b: string, i: nat)
    requires i < |a| && i < |b| && Upper(a[i]) != Upper(b[i])
    ensures !EqualsIgnoreCase(a, b)
  {
  }

  /** The leading keyword selects its routine. */
  lemma Dispatch(fp: FloatText, ts: seq<Token>)
    requires ts != []
    ensures ts[0] == Keyword("CREATE") ==> ParseStatement(fp, ts) == ParseCreate(ts[1..])
    ensures ts[0] == Keyword("DROP") ==> ParseStatement(fp, ts) == ParseDropTable(ts[1..])
    ensures ts[0] == Keyword("RENAME") ==> ParseStatement(fp, ts) == ParseRenameTable(ts[1..])
    ensures ts[0] == Keyword("INSERT") ==> ParseStatement(fp, ts) == ParseInsert(fp, ts[1..])
    ensures ts[0] == Keyword("UPDATE") ==> ParseStatement(fp, ts) == ParseUpdate(fp, ts[1..])
    ensures ts[0] == Keyword("DELETE") ==> ParseStatement(fp, ts) == ParseDelete(fp, ts[1..])
  {
    hide EqualsIgnoreCase, Clean, NamedCommand;
    hide ParseCreate, ParseDropTable, ParseRenameTable, ParseInsert, ParseUpdate, ParseDelete, ParseSelect;
    KeywordsDiffer();
  }

  lemma KeywordsDiffer()
    ensures forall w :: w in {"CREATE", "DROP", "RENAME", "INSERT", "UPDATE", "DELETE", "TABLE", "INDEX"} ==>
        EqualsIgnoreCase(w, w)
    ensures !EqualsIgnoreCase("DROP", "CREATE")
    ensures !EqualsIgnoreCase("RENAME", "CREATE") && !EqualsIgnoreCase("RENAME", "DROP")
    ensures forall w :: w in {"INSERT", "UPDATE", "DELETE"} ==>
      !EqualsIgnoreCase(w, "CREATE") && !EqualsIgnoreCase(w, "DROP") && !EqualsIgnoreCase(w, "RENAME") &&
          !EqualsIgnoreCase(w, "LIST")
    ensures !EqualsIgnoreCase("UPDATE", "INSERT") && !EqualsIgnoreCase("UPDATE", "SELECT")
    ensures !EqualsIgnoreCase("DELETE", "INSERT") && !EqualsIgnoreCase("DELETE", "SELECT") &&
        !EqualsIgnoreCase("DELETE", "UPDATE")
    ensures !EqualsIgnoreCase("INDEX", "DATABASE") && !EqualsIgnoreCase("INDEX", "TABLE") &&
        !EqualsIgnoreCase("TABLE", "DATABASE")
  {
    DifferAt("RENAME", "CREATE", 0);
    DifferAt("INSERT", "CREATE", 0);
    DifferAt("INSERT", "RENAME", 0);
    DifferAt("UPDATE", "CREATE", 0);
    DifferAt("UPDATE", "RENAME", 0);
    DifferAt("UPDATE", "INSERT", 0);
    DifferAt("UPDATE", "SELECT", 0);
    DifferAt("DELETE", "CREATE", 0);
    DifferAt("DELETE", "RENAME", 0);
    DifferAt("DELETE", "INSERT", 0);
    DifferAt("DELETE", "SELECT", 0);
    DifferAt("DELETE", "UPDATE", 0);
    DifferAt("INDEX", "TABLE", 0);
  }

  lemma TakeName(name: string, rest: seq<Token>)
    ensures Name([Keyword(name)] + rest) == Ok((name, rest))
  {
  }

  /** `expect` of a token with its own kind and spelling. */
  lemma Take(t: Token, rest: seq<Token>)
    ensures Expect([t] + rest, t.kind, t.lexeme) == Ok(rest)
    ensures Expect([t] + rest, t.kind, "") == Ok(rest)
  {
    assert ([t] + rest)[1..] == rest;
  }

  lemma Finish(fp: FloatText, ts: seq<Token>, q: Command)
    requires ParseStatement(fp, ts) == Ok((q, [SEMICOLON, END]))
    ensures ParseTokens(fp, ts) == Ok(q)
  {
    hide Clean, NamedCommand, ParseStatement;
    assert [SEMICOLON, END][1..] == [END];
  }

  lemma ParseBackDropTable(fp: FloatText, name: string)
    ensures ParseTokens(fp, DropTableTokens(name) + [END]) == Ok(DropTable(name))
  {
    hide Clean, NamedCommand, ParseStatement, Name, Expect;
    var t2 := [SEMICOLON, END];
    var t1 := [Keyword(name)] + t2;
    var t0 := [Keyword("TABLE")] + t1;
    var ts := [Keyword("DROP")] + t0;
    assert DropTableTokens(name) + [END] == ts && ts[1..] == t0;
    Dispatch(fp, ts);
    Take(Keyword("TABLE"), t1);
    TakeName(name, t2);
    Finish(fp, ts, DropTable(name));
  }

  lemma ParseBackRenameTable(fp: FloatText, oldName: string, newName: string)
    ensures ParseTokens(fp, RenameTableTokens(oldName, newName) + [END]) == Ok(RenameTable(oldName, newName))
  {
    hide Clean, NamedCommand, ParseStatement, Name, Expect;
    var t4 := [SEMICOLON, END];
    var t3 := [Keyword(newName)] + t4;
    var t2 := [Keyword("TO")] + t3;
    var t1 := [Keyword(oldName)] + t2;
    var t0 := [Keyword("TABLE")] + t1;
    var ts := [Keyword("RENAME")] + t0;
    assert RenameTableTokens(oldName, newName) + [END] == ts && ts[1..] == t0;
    Dispatch(fp, ts);
    Take(Keyword("TABLE"), t1);
    TakeName(oldName, t2);
    Take(Keyword("TO"), t3);
    TakeName(newName, t4);
    Finish(fp, ts, RenameTable(oldName, newName));
  }

  lemma CreateIndexShape(name: string, table: string, column: string)
    ensures CreateIndexTokens(name, table, column) + [END] ==
      [Keyword("CREATE")] + ([Keyword("INDEX")] + ([Keyword(name)] + ([Keyword("ON")] + ([Keyword(table)] + ([OPEN]
      + ([Keyword(column)] + ([CLOSE] + [SEMICOLON, END])))))))
  {
    var tail := [OPEN] + ([Keyword(column)] + ([CLOSE] + [SEMICOLON, END]));
    assert tail == [OPEN, Keyword(column), CLOSE, SEMICOLON, END];
  }

  lemma ParseIndexTail(name: string, table: string, column: string, rest: seq<Token>)
    ensures ParseCreateIndex([Keyword(name)] +
        ([Keyword("ON")] + ([Keyword(table)] + ([OPEN] + ([Keyword(column)] + ([CLOSE] + rest))))))
         == Ok((CreateIndex(name, table, column), rest))
  {
    hide Name, Expect, Clean, NamedCommand;
    var t6 := [CLOSE] + rest;
    var t5 := [Keyword(column)] + t6;
    var t4 := [OPEN] + t5;
    var t3 := [Keyword(table)] + t4;
    var t2 := [Keyword("ON")] + t3;
    TakeName(name, t2);
    Take(Keyword("ON"), t3);
    TakeName(table, t4);
    Take(OPEN, t5);
    TakeName(column, t6);
    Take(CLOSE, rest);
  }

  lemma ParseBackCreateIndex(fp: FloatText, name: string, table: string, column: string)
    ensures ParseTokens(fp, CreateIndexTokens(name, table, column) + [END]) == Ok(CreateIndex(name, table, column))
  {
    hide Clean, NamedCommand, ParseStatement, EqualsIgnoreCase, ParseCreateIndex;
    var t1 := [Keyword(name)] + ([Keyword("ON")] +
        ([Keyword(table)] + ([OPEN] + ([Keyword(column)] + ([CLOSE] + [SEMICOLON, END])))));
    var t0 := [Keyword("INDEX")] + t1;
    var ts := [Keyword("CREATE")] + t0;
    CreateIndexShape(name, table, column);
    assert ts[1..] == t0 && t0[1..] == t1;
    Dispatch(fp, ts);
    KeywordsDiffer();
    ParseIndexTail(name, table, column, [SEMICOLON, END]);
    Finish(fp, ts, CreateIndex(name, table, column));
  }

  lemma ParseBackCreateTable(fp: FloatText, name: string, columns: seq<Column>)
    requires columns != [] && NamedColumns(columns)
    ensures ParseTokens(fp, CreateTableTokens(name, columns) + [END]) == Ok(CreateTable(name, columns))
  {
    hide Clean, NamedCommand, ParseStatement, Name, Expect, EqualsIgnoreCase, ParseColumns, ColumnListTokens,
        NamedColumns;
    var t4 := [SEMICOLON, END];
    var t3 := [CLOSE] + t4;
    var t2 := ColumnListTokens(columns) + t3;
    var t1 := [Keyword(name)] + ([OPEN] + t2);
    var t0 := [Keyword("TABLE")] + t1;
    var ts := [Keyword("CREATE")] + t0;
    assert CreateTableTokens(name, columns) + [END] == ts && ts[1..] == t0 && t0[1..] == t1;
    Dispatch(fp, ts);
    KeywordsDiffer();
    TakeName(name, [OPEN] + t2);
    Take(OPEN, t2);
    ColumnListRoundTrip(columns, t3);
    Take(CLOSE, t4);
    Finish(fp, ts, CreateTable(name, columns));
  }

  // ----- Statements with literals read back -----

  /** A statement that reads ends at its semicolon; one cut short by junk does not end there. */
  lemma FinishReads(fp: FloatText, ts: seq<Token>, q: Result<Command>)
    requires Follows(ParseStatement(fp, ts), q, [SEMICOLON, END])
    ensures ParseTokens(fp, ts) == q
  {
    hide Clean, NamedCommand, ParseStatement;
    if q.Ok? {
      Finish(fp, ts, q.value);
    } else if ParseStatement(fp, ts).Ok? {
      JunkStops(ParseStatement(fp, ts).value.1);
    }
  }

  lemma TupleReads(fp: FloatText, row: Row)
    requires row != [] && ShapedRow(fp, row)
    ensures var read := RowReadAs(fp, row);
      ParseTuples(fp, [OPEN] + (RowTokens(fp, row) + [CLOSE, SEMICOLON, END])) ==
        if read.Ok? then Ok(([read.value], [SEMICOLON, END])) else Err
  {
    hide ParseValues, RowTokens, Clean, RowReadAs, ShapedRow;
    var close := [CLOSE, SEMICOLON, END];
    ValuesRead(fp, row, close);
    var list := RowTokens(fp, row) + close;
    assert ([OPEN] + list)[1..] == list && close[1..] == [SEMICOLON, END];
  }

  function InsertReadAs(fp: FloatText, table: string, row: Row): Result<Command> {
    var read :- RowReadAs(fp, row);
    Ok(Insert(table, [read]))
  }

  lemma InsertTokensRead(fp: FloatText, table: string, row: Row)
    requires row != [] && ShapedRow(fp, row)
    ensures ParseTokens(fp, InsertTokens(fp, table, row) + [END]) == InsertReadAs(fp, table, row)
  {
    hide Clean, NamedCommand, ParseStatement, Name, Expect, EqualsIgnoreCase, ParseTuples, RowTokens, RowReadAs,
        ShapedRow, ParseTokens;
    var t3 := [OPEN] + (RowTokens(fp, row) + [CLOSE, SEMICOLON, END]);
    var t2 := [Keyword("VALUES")] + t3;
    var t1 := [Keyword(table)] + t2;
    var t0 := [Keyword("INTO")] + t1;
    var ts := [Keyword("INSERT")] + t0;
    assert InsertTokens(fp, table, row) + [END] == ts && ts[1..] == t0;
    Dispatch(fp, ts);
    Take(Keyword("INTO"), t1);
    TakeName(table, t2);
    Take(Keyword("VALUES"), t3);
    TupleReads(fp, row);
    FinishReads(fp, ts, InsertReadAs(fp, table, row));
  }

  lemma WhereReads(fp: FloatText, where: Option<Predicate>)
    requires ShapedWhere(fp, where)
    ensures Follows(ParseWhere(fp, WhereTokens(fp, where) + [SEMICOLON, END]), WhereReadAs(fp, where), [SEMICOLON, END])
  {
    var rest := [SEMICOLON, END];
    if where.Some? {
      PredicateReads(fp, where.value, rest);
      hide ParseOr, PredicateTokens, Junk, PredicateReadAs;
      var ts := WhereTokens(fp, where) + rest;
      assert ts[1..] == PredicateTokens(fp, where.value) + rest;
    } else {
      assert WhereTokens(fp, where) + rest == rest;
    }
  }

  function UpdateReadAs(fp: FloatText, table: string, column: string, value: Value,
      where: Option<Predicate>): Result<Command> {
    var v :- ReadAs(fp, value);
    var p :- WhereReadAs(fp, where);
    Ok(Update(table, column, v, p))
  }

  lemma UpdateTokensRead(fp: FloatText, table: string, column: string, value: Value, where: Option<Predicate>)
    requires Shaped(fp, value) && ShapedWhere(fp, where)
    ensures ParseTokens(fp, UpdateTokens(fp, table, column, value, where) + [END]) ==
        UpdateReadAs(fp, table, column, value, where)
  {
    hide Clean, NamedCommand, ParseStatement, Name, Expect, EqualsIgnoreCase, ParseTokens, ParseWhere, ParseValue,
        WhereTokens, LiteralTokens,
      ReadAs, WhereReadAs, Shaped, ShapedWhere, Junk;
    var t5 := WhereTokens(fp, where) + [SEMICOLON, END];
    var t4 := LiteralTokens(fp, value) + t5;
    var t3 := [OpToken(EqualTo)] + t4;
    var t2 := [Keyword(column)] + t3;
    var t1 := [Keyword("SET")] + t2;
    var t0 := [Keyword(table)] + t1;
    var ts := [Keyword("UPDATE")] + t0;
    assert UpdateTokens(fp, table, column, value, where) + [END] == ts && ts[1..] == t0;
    Dispatch(fp, ts);
    TakeName(table, t1);
    Take(Keyword("SET"), t2);
    TakeName(column, t3);
    Take(OpToken(EqualTo), t4);
    LiteralReads(fp, value, t5);
    WhereReads(fp, where);
    if ReadAs(fp, value).Err? && ParseValue(fp, t4).Ok? {
      JunkIsNoWhere(fp, ParseValue(fp, t4).value.1);
    }
    FinishReads(fp, ts, UpdateReadAs(fp, table, column, value, where));
  }

  lemma JunkIsNoWhere(fp: FloatText, ts: seq<Token>)
    requires Junk(ts)
    ensures ParseWhere(fp, ts) == Ok((None, ts))
  {
    JunkStops(ts);
    hide Junk;
  }

  function DeleteReadAs(fp: FloatText, table: string, where: Option<Predicate>): Result<Command> {
    var p :- WhereReadAs(fp, where);
    Ok(Delete(table, p))
  }

  lemma DeleteTokensRead(fp: FloatText, table: string, where: Option<Predicate>)
    requires ShapedWhere(fp, where)
    ensures ParseTokens(fp, DeleteTokens(fp, table, where) + [END]) == DeleteReadAs(fp, table, where)
  {
    hide Clean, NamedCommand, ParseStatement, Name, Expect, EqualsIgnoreCase, ParseTokens, ParseWhere, WhereTokens,
        WhereReadAs, ShapedWhere, Junk;
    var t2 := WhereTokens(fp, where) + [SEMICOLON, END];
    var t1 := [Keyword(table)] + t2;
    var t0 := [Keyword("FROM")] + t1;
    var ts := [Keyword("DELETE")] + t0;
    assert DeleteTokens(fp, table, where) + [END] == ts && ts[1..] == t0;
    Dispatch(fp, ts);
    Take(Keyword("FROM"), t1);
    TakeName(table, t2);
    WhereReads(fp, where);
    FinishReads(fp, ts, DeleteReadAs(fp, table, where));
  }

  // ----- The round trip over whole statements -----

  /** Statements the executor logs as one SQL text; a multi-row insert is logged row by row. */
  predicate Logged(q: Command) {
    q.CreateTable? || q.DropTable? || q.RenameTable? || q.Update? || q.Delete? || q.CreateIndex? || (q.Insert? &&
        |q.rows| == 1)
  }

  function StatementText(fp: FloatText, q: Command): string
    requires Logged(q)
  {
    match q
    case CreateTable(name, columns) => CreateTableSql(name, columns)
    case DropTable(name) => DropTableSql(name)
    case RenameTable(oldName, newName) => RenameTableSql(oldName, newName)
    case Insert(table, rows) => InsertSql(fp, table, rows[0])
    case Update(table, column, value, where) => UpdateSql(fp, table, column, value, where)
    case Delete(table, where) => DeleteSql(fp, table, where)
    case CreateIndex(name, table, column) => CreateIndexSql(name, table, column)
  }

  /** The printer's entry for each kind of statement. */
  method PrintStatement(fp: FloatText, q: Command) returns (sql: string)
    requires Logged(q)
    ensures sql == StatementText(fp, q)
  {
    match q
    case CreateTable(name, columns) => sql := PrintCreateTable(name, columns);
    case DropTable(name) => sql := DropTableSql(name);
    case RenameTable(oldName, newName) => sql := RenameTableSql(oldName, newName);
    case Insert(table, rows) => sql := PrintInsert(fp, table, rows[0]);
    case Update(table, column, value, where) => sql := PrintUpdate(fp, table, column, value, where);
    case Delete(table, where) => sql := PrintDelete(fp, table, where);
    case CreateIndex(name, table, column) => sql := CreateIndexSql(name, table, column);
  }

  /** Every double of the statement prints in one of the shapes doubles print in. */
  predicate ShapedCommand(fp: FloatText, q: Command) {
    match q
    case Insert(_, rows) => forall i :: 0 <= i < |rows| ==> ShapedRow(fp, rows[i])
    case Update(_, _, value, where) => Shaped(fp, value) && ShapedWhere(fp, where)
    case Delete(_, where) => ShapedWhere(fp, where)
    case _ => true
  }

  predicate AliveCommand(fp: FloatText, q: Command) {
    match q
    case Insert(_, rows) => forall i :: 0 <= i < |rows| ==> AliveRow(fp, rows[i])
    case Update(_, _, value, where) => Alive(fp, value) && AliveWhere(fp, where)
    case Delete(_, where) => AliveWhere(fp, where)
    case _ => true
  }

  /** All literals of the statement read back as themselves. */
  predicate LiteralsReread(fp: FloatText, q: Command) {
    match q
    case Insert(_, rows) => forall i :: 0 <= i < |rows| ==> PrintableRow(fp, rows[i])
    case Update(_, _, value, where) => Rereads(fp, value) && (where.Some? ==> PredicateRereads(fp, where.value))
    case Delete(_, where) => where.Some? ==> PredicateRereads(fp, where.value)
    case _ => true
  }

  /** The logged statement with every literal as it reads back. */
  function ReadBack(fp: FloatText, q: Command): Result<Command>
    requires Logged(q)
  {
    match q
    case Insert(table, rows) => InsertReadAs(fp, table, rows[0])
    case Update(table, column, value, where) => UpdateReadAs(fp, table, column, value, where)
    case Delete(table, where) => DeleteReadAs(fp, table, where)
    case _ => Ok(q)
  }

  /**
   A statement reads back as itself exactly when each of its literals does; one that kills the tokenizer does not read.
   */
  lemma ReadsBackExactly(fp: FloatText, q: Command)
    requires Logged(q)
    ensures LiteralsReread(fp, q) <==> ReadBack(fp, q) == Ok(q)
    ensures LiteralsReread(fp, q) ==> ShapedCommand(fp, q)
    ensures !AliveCommand(fp, q) ==> ReadBack(fp, q).Err?
  {
    hide Rereads, ReadAs, Shaped, Alive, PredicateRereads, PredicateReadAs, ShapedPredicate, AlivePredicate,
        PrintableRow, RowReadAs, ShapedRow, AliveRow;
    match q
    case Insert(_, rows) =>
      RowReadsAsItself(fp, rows[0]);
      assert rows == [rows[0]];
      var read := RowReadAs(fp, rows[0]);
      if read.Ok? { assert [read.value][0] == read.value; }
    case Update(_, _, value, where) =>
      RereadsExactly(fp, value);
      DeadReadsNot(fp, value);
      if where.Some? { PredicateRereadsExactly(fp, where.value); }
    case Delete(_, where) =>
      if where.Some? { PredicateRereadsExactly(fp, where.value); }
    case _ =>
  }

  lemma ParseScanned(fp: FloatText, text: string, ts: seq<Token>, alive: bool, q: Result<Command>)
    requires Scans(text, ts, alive) && ParseTokens(fp, ts + [END]) == q && (!alive ==> q == Err)
    ensures Parse(fp, text) == q
  {
    hide Lex, ParseTokens;
    if !alive {
      assert text + "" == text;
    }
  }

  lemma ParseText(fp: FloatText, text: string, ts: seq<Token>, q: Command)
    requires Lexes(text, ts) && ParseTokens(fp, ts + [END]) == Ok(q)
    ensures Parse(fp, text) == Ok(q)
  {
    hide Lex, ParseTokens;
  }

  /**
   Parsing the logged text of any statement, doubles of every printed shape included, gives that statement with its
   literals as they read back, or an error exactly when one does not read.
   */
  lemma StatementReadsBack(fp: FloatText, q: Command)
    requires Logged(q) && NamedCommand(q) && ShapedCommand(fp, q)
    ensures Parse(fp, StatementText(fp, q)) == ReadBack(fp, q)
  {
    hide Parse, Lexes, Scans, ParseTokens, CreateTableSql, CreateTableTokens, DropTableSql, DropTableTokens,
        RenameTableSql, RenameTableTokens,
      InsertSql, InsertTokens, UpdateSql, UpdateTokens, DeleteSql, DeleteTokens, CreateIndexSql, CreateIndexTokens,
          IsName, Shaped, Alive,
      ShapedRow, AliveRow, ShapedWhere, AliveWhere, NamedWhere, InsertReadAs, UpdateReadAs, DeleteReadAs;
    ReadsBackExactly(fp, q);
    match q
    case CreateTable(name, columns) =>
      LexCreateTable(name, columns);
      ParseBackCreateTable(fp, name, columns);
      ParseText(fp, StatementText(fp, q), CreateTableTokens(name, columns), q);
    case DropTable(name) =>
      LexDropTable(name);
      ParseBackDropTable(fp, name);
      ParseText(fp, StatementText(fp, q), DropTableTokens(name), q);
    case RenameTable(oldName, newName) =>
      LexRenameTable(oldName, newName);
      ParseBackRenameTable(fp, oldName, newName);
      ParseText(fp, StatementText(fp, q), RenameTableTokens(oldName, newName), q);
    case Insert(table, rows) =>
      ScanInsert(fp, table, rows[0]);
      InsertTokensRead(fp, table, rows[0]);
      ParseScanned(fp, StatementText(fp, q), InsertTokens(fp, table, rows[0]), AliveRow(fp, rows[0]), ReadBack(fp, q));
    case Update(table, column, value, where) =>
      ScanUpdate(fp, table, column, value, where);
      UpdateTokensRead(fp, table, column, value, where);
      ParseScanned(fp, StatementText(fp, q), UpdateTokens(fp, table, column, value, where),
                   Alive(fp, value) && AliveWhere(fp, where), ReadBack(fp, q));
    case Delete(table, where) =>
      ScanDelete(fp, table, where);
      DeleteTokensRead(fp, table, where);
      ParseScanned(fp, StatementText(fp, q), DeleteTokens(fp, table, where), AliveWhere(fp, where), ReadBack(fp, q));
    case CreateIndex(name, table, column) =>
      LexCreateIndex(name, table, column);
      ParseBackCreateIndex(fp, name, table, column);
      ParseText(fp, StatementText(fp, q), CreateIndexTokens(name, table, column), q);
  }

  /** When its literals read back, parsing the logged text of a statement gives that very statement back. */
  lemma StatementRoundTrip(fp: FloatText, q: Command)
    requires Logged(q) && NamedCommand(q) && LiteralsReread(fp, q)
    ensures Parse(fp, StatementText(fp, q)) == Ok(q)
  {
    hide Parse, StatementText, NamedCommand, LiteralsReread, ShapedCommand, ReadBack;
    ReadsBackExactly(fp, q);
    StatementReadsBack(fp, q);
  }
}
