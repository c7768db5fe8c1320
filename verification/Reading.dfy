/** Tokenizing and parsing a sentence gives back the statement it says, for every statement and every way of writing. */
module Reading {
  import opened Results
  import opened Values
  import opened Ast
  import opened Lexer
  import opened SqlText
  import opened Grammar
  import opened LiteralText
  import opened SqlRoundTrip
  import opened Sentences
  import opened Writing

  // ----- Values -----

  lemma ValueRead(style: Style, fp: FloatText, v: Value, rest: seq<Token>)
    requires Proper(style) && Rereads(fp, v)
    ensures ParseValue(fp, [ValueSays(style, fp, v)] + rest) == Ok((v, rest))
  {
    var ts := [ValueSays(style, fp, v)] + rest;
    assert ts[1..] == rest;
    if v.Null? {
      WordIs(style, "NULL", "NULL");
    } else {
      LiteralRoundTrip(fp, v, rest);
    }
  }

  /** A comma is matched, anything else in a list's place ends it. */
  lemma CommaOrClose(rest: seq<Token>)
    ensures Match([COMMA] + rest, Comma, "") == Ok((true, rest))
    ensures Match([CLOSE] + rest, Comma, "") == Ok((false, [CLOSE] + rest))
    ensures Expect([CLOSE] + rest, RightParen, "") == Ok(rest)
    ensures Expect([OPEN] + rest, LeftParen, "") == Ok(rest)
  {
    assert ([COMMA] + rest)[1..] == rest && ([CLOSE] + rest)[1..] == rest && ([OPEN] + rest)[1..] == rest;
  }

  lemma ValuesStep(fp: FloatText, ts: seq<Token>, v: Value, more: seq<Token>)
    requires ParseValue(fp, ts) == Ok((v, more)) && more != []
    ensures more[0].kind != Comma ==> ParseValues(fp, ts) == Ok(([v], more))
    ensures more[0].kind == Comma && ParseValues(fp, more[1..]).Ok? ==>
        var rest := ParseValues(fp, more[1..]).value; ParseValues(fp, ts) == Ok(([v] + rest.0, rest.1))
  {
    hide ParseValue, Clean;
  }

  lemma InFront(a: Token, b: Token, tail: seq<Token>, rest: seq<Token>)
    ensures [a, b] + tail + rest == [a] + ([b] + (tail + rest))
    ensures ([b] + (tail + rest))[1..] == tail + rest
  {
  }

  lemma ValuesSayMore(style: Style, fp: FloatText, row: Row, close: seq<Token>)
    requires |row| > 1
    ensures ValuesSay(style, fp, row) + close ==
      [ValueSays(style, fp, row[0])] + ([COMMA] + (ValuesSay(style, fp, row[1..]) + close))
    ensures var more := ValuesSay(style, fp, row[1..]) + close; ([COMMA] + more)[1..] == more
  {
    hide ValueSays;
    InFront(ValueSays(style, fp, row[0]), COMMA, ValuesSay(style, fp, row[1..]), close);
  }

  lemma {:induction false} ValuesRead(style: Style, fp: FloatText, row: Row, rest: seq<Token>)
    requires Proper(style) && row != [] && RowRereads(fp, row)
    ensures ParseValues(fp, ValuesSay(style, fp, row) + ([CLOSE] + rest)) == Ok((row, [CLOSE] + rest))
  {
    hide Rereads, ParseValue, ParseValues, ValueSays, Match, Clean, Proper;
    var close := [CLOSE] + rest;
    if |row| == 1 {
      ValueRead(style, fp, row[0], close);
      ValuesStep(fp, [ValueSays(style, fp, row[0])] + close, row[0], close);
      assert [row[0]] == row;
    } else {
      hide ValuesSay;
      var more := ValuesSay(style, fp, row[1..]) + close;
      ValuesSayMore(style, fp, row, close);
      ValueRead(style, fp, row[0], [COMMA] + more);
      ValuesRead(style, fp, row[1..], rest);
      ValuesStep(fp, ValuesSay(style, fp, row) + close, row[0], [COMMA] + more);
      assert [row[0]] + row[1..] == row;
    }
  }

  lemma TupleRead(style: Style, fp: FloatText, row: Row, rest: seq<Token>)
    requires Proper(style) && row != [] && RowRereads(fp, row)
    ensures ParseTuple(fp, TupleSays(style, fp, row) + rest) == Ok((row, rest))
  {
    hide RowRereads, ParseValues, ValuesSay, Match, Expect, Clean;
    var close := [CLOSE] + rest;
    ValuesRead(style, fp, row, rest);
    CommaOrClose(ValuesSay(style, fp, row) + close);
    CommaOrClose(rest);
    assert TupleSays(style, fp, row) + rest == [OPEN] + (ValuesSay(style, fp, row) + close);
  }

  lemma TuplesStep(fp: FloatText, ts: seq<Token>, row: Row, more: seq<Token>)
    requires ParseTuple(fp, ts) == Ok((row, more)) && more != []
    ensures more[0].kind != Comma ==> ParseTuples(fp, ts) == Ok(([row], more))
    ensures more[0].kind == Comma && ParseTuples(fp, more[1..]).Ok? ==>
        var rest := ParseTuples(fp, more[1..]).value; ParseTuples(fp, ts) == Ok(([row] + rest.0, rest.1))
  {
    hide ParseTuple, Clean;
  }

  lemma TuplesSayMore(style: Style, fp: FloatText, rows: seq<Row>, rest: seq<Token>)
    requires |rows| > 1
    ensures TuplesSay(style, fp, rows) + rest ==
      TupleSays(style, fp, rows[0]) + ([COMMA] + (TuplesSay(style, fp, rows[1..]) + rest))
    ensures var more := TuplesSay(style, fp, rows[1..]) + rest; ([COMMA] + more)[1..] == more
  {
    hide TupleSays;
  }

  lemma {:induction false} TuplesRead(style: Style, fp: FloatText, rows: seq<Row>, rest: seq<Token>)
    requires Proper(style) && rows != [] && rest != [] && rest[0].kind != Comma
    requires forall i :: 0 <= i < |rows| ==> rows[i] != [] && RowRereads(fp, rows[i])
    ensures ParseTuples(fp, TuplesSay(style, fp, rows) + rest) == Ok((rows, rest))
  {
    hide RowRereads, ParseTuple, ParseTuples, TupleSays, Clean, Proper;
    if |rows| == 1 {
      TupleRead(style, fp, rows[0], rest);
      TuplesStep(fp, TupleSays(style, fp, rows[0]) + rest, rows[0], rest);
      assert [rows[0]] == rows;
    } else {
      hide TuplesSay;
      var more := TuplesSay(style, fp, rows[1..]) + rest;
      TuplesSayMore(style, fp, rows, rest);
      TupleRead(style, fp, rows[0], [COMMA] + more);
      TuplesRead(style, fp, rows[1..], rest);
      TuplesStep(fp, TuplesSay(style, fp, rows) + rest, rows[0], [COMMA] + more);
      assert [rows[0]] + rows[1..] == rows;
    }
  }

  // ----- Names and columns -----

  lemma NamesStep(ts: seq<Token>, name: string, more: seq<Token>)
    requires Name(ts) == Ok((name, more)) && more != []
    ensures more[0].kind != Comma ==> ParseNames(ts) == Ok(([name], more))
    ensures more[0].kind == Comma && ParseNames(more[1..]).Ok? ==>
        var rest := ParseNames(more[1..]).value; ParseNames(ts) == Ok(([name] + rest.0, rest.1))
  {
    hide Name, Clean;
  }

  lemma NamesSayMore(names: seq<string>, rest: seq<Token>)
    requires |names| > 1
    ensures NamesSay(names) + rest == [Keyword(names[0])] + ([COMMA] + (NamesSay(names[1..]) + rest))
    ensures var more := NamesSay(names[1..]) + rest; ([COMMA] + more)[1..] == more
  {
    InFront(Keyword(names[0]), COMMA, NamesSay(names[1..]), rest);
  }

  lemma {:induction false} NamesRead(names: seq<string>, rest: seq<Token>)
    requires names != [] && rest != [] && rest[0].kind != Comma
    ensures ParseNames(NamesSay(names) + rest) == Ok((names, rest))
  {
    hide Clean, ParseNames, Name, IsName;
    if |names| == 1 {
      TakeName(names[0], rest);
      NamesStep([Keyword(names[0])] + rest, names[0], rest);
      assert [names[0]] == names;
    } else {
      hide NamesSay;
      var more := NamesSay(names[1..]) + rest;
      NamesSayMore(names, rest);
      TakeName(names[0], [COMMA] + more);
      NamesRead(names[1..], rest);
      NamesStep(NamesSay(names) + rest, names[0], [COMMA] + more);
      assert [names[0]] + names[1..] == names;
    }
  }

  lemma SelectedRead(selected: seq<string>, rest: seq<Token>)
    requires selected == ["*"] || selected != []
    requires rest != [] && rest[0].kind != Comma
    ensures ParseSelected(SelectedSays(selected) + rest) == Ok((selected, rest))
  {
    hide Clean, ParseNames;
    var ts := SelectedSays(selected) + rest;
    if selected == ["*"] {
      assert ts == [Token(Star, "*")] + rest && ts[1..] == rest;
    } else {
      NamesRead(selected, rest);
      NamesStart(selected);
    }
  }

  lemma NamesStart(names: seq<string>)
    requires names != []
    ensures NamesSay(names) != [] && NamesSay(names)[0].kind == Identifier
  {
  }

  lemma TypeRead(style: Style, t: ColumnType)
    requires Proper(style) && !t.OtherType?
    ensures ColumnTypeFromText(style.spell(TypeWord(t))) == Some(t)
  {
    var word := TypeWord(t);
    var spelled := style.spell(word);
    assert Capitals(word) && CaseOf(spelled, word);
    assert forall i :: 0 <= i < |word| ==> Upper(spelled[i]) == word[i];
    assert Uppercase(spelled) == word;
    assert "INT" != "DOUBLE" && "DOUBLE"[0] != "STRING"[0] && |"INT"| != |"STRING"|;
  }

  /** The mark after a column's type: NOT NULL, NULL or nothing. */
  lemma MarkRead(style: Style, nullable: bool, mark: seq<Token>, rest: seq<Token>)
    requires Proper(style) && NoWord(rest)
    requires mark == if nullable then [Word(style, "NULL")]
      else if style.notNull then [Word(style, "NOT"), Word(style, "NULL")]
      else []
    ensures var not := Match(mark + rest, Identifier, "NOT");
      && not.Ok? && not.value.0 == (!nullable && style.notNull)
      && (not.value.0 ==> Expect(not.value.1, Identifier, "NULL") == Ok(rest))
      && (!not.value.0 ==> Match(mark + rest, Identifier, "NULL") == Ok((nullable, rest)))
  {
    hide Clean, Match, EqualsIgnoreCase;
    NoWordAvoids(rest, ["NOT", "NULL"]);
    assert Match(rest, Identifier, ["NOT", "NULL"][0]) == Ok((false, rest));
    assert Match(rest, Identifier, ["NOT", "NULL"][1]) == Ok((false, rest));
    if nullable {
      assert "NULL"[1] != "NOT"[1];
      WordAt(style, "NULL", "NOT", rest);
      WordAt(style, "NULL", "NULL", rest);
    } else if style.notNull {
      assert mark + rest == [Word(style, "NOT")] + ([Word(style, "NULL")] + rest);
      WordAt(style, "NOT", "NOT", [Word(style, "NULL")] + rest);
      WordAt(style, "NULL", "NULL", rest);
    } else {
      assert mark + rest == rest;
    }
  }

  lemma ColumnRead(style: Style, c: Column, rest: seq<Token>)
    requires Proper(style) && !c.ctype.OtherType? && NoWord(rest)
    ensures ParseColumn(ColumnSays(style, c) + rest) == Ok((c, rest))
  {
    hide Clean, Match, Expect, Name, ColumnTypeFromText, EqualsIgnoreCase, Proper;
    var kind := Word(style, TypeWord(c.ctype));
    var mark := if c.nullable then [Word(style, "NULL")]
      else if style.notNull then [Word(style, "NOT"), Word(style, "NULL")]
      else [];
    assert ColumnSays(style, c) + rest == [Keyword(c.name)] + ([kind] + (mark + rest));
    TypeRead(style, c.ctype);
    TakeName(c.name, [kind] + (mark + rest));
    TakeName(style.spell(TypeWord(c.ctype)), mark + rest);
    MarkRead(style, c.nullable, mark, rest);
  }

  lemma ColumnsStep(ts: seq<Token>, c: Column, more: seq<Token>)
    requires ParseColumn(ts) == Ok((c, more)) && more != []
    ensures more[0].kind != Comma ==> ParseColumns(ts) == Ok(([c], more))
    ensures more[0].kind == Comma && ParseColumns(more[1..]).Ok? ==>
        var rest := ParseColumns(more[1..]).value; ParseColumns(ts) == Ok(([c] + rest.0, rest.1))
  {
    hide ParseColumn, Clean;
  }

  lemma ColumnsSayMore(style: Style, columns: seq<Column>, close: seq<Token>)
    requires |columns| > 1 && forall i :: 0 <= i < |columns| ==> !columns[i].ctype.OtherType?
    ensures ColumnsSay(style, columns) + close ==
      ColumnSays(style, columns[0]) + ([COMMA] + (ColumnsSay(style, columns[1..]) + close))
    ensures var more := ColumnsSay(style, columns[1..]) + close; ([COMMA] + more)[1..] == more
  {
    hide ColumnSays;
  }

  lemma {:induction false} ColumnsRead(style: Style, columns: seq<Column>, rest: seq<Token>)
    requires Proper(style) && columns != []
    requires forall i :: 0 <= i < |columns| ==> !columns[i].ctype.OtherType?
    ensures ParseColumns(ColumnsSay(style, columns) + ([CLOSE] + rest)) == Ok((columns, [CLOSE] + rest))
  {
    hide Clean, ParseColumn, ParseColumns, ColumnSays, Proper;
    var close := [CLOSE] + rest;
    if |columns| == 1 {
      ColumnRead(style, columns[0], close);
      ColumnsStep(ColumnSays(style, columns[0]) + close, columns[0], close);
      assert [columns[0]] == columns;
    } else {
      hide ColumnsSay;
      var more := ColumnsSay(style, columns[1..]) + close;
      ColumnsSayMore(style, columns, close);
      ColumnRead(style, columns[0], [COMMA] + more);
      ColumnsRead(style, columns[1..], rest);
      ColumnsStep(ColumnsSay(style, columns) + close, columns[0], [COMMA] + more);
      assert [columns[0]] + columns[1..] == columns;
    }
  }

  // ----- Conditions -----

  lemma ComparisonRead(style: Style, fp: FloatText, column: string, op: CompareOp, value: Value, rest: seq<Token>)
    requires Proper(style) && Rereads(fp, value)
    ensures ParsePrimary(fp, [Keyword(column), OpToken(op), ValueSays(style, fp, value)] + rest) ==
      Ok((Comparison(column, op, value), rest))
  {
    hide Rereads, ParseValue, ValueSays, Clean, ParseOr;
    var value_ := [ValueSays(style, fp, value)] + rest;
    var ts := [Keyword(column), OpToken(op), ValueSays(style, fp, value)] + rest;
    ValueRead(style, fp, value, rest);
    TakeName(column, [OpToken(op)] + value_);
    assert ts == [Keyword(column)] + ([OpToken(op)] + value_);
    assert ([OpToken(op)] + value_)[1..] == value_;
  }

  /** The two words that join conditions. */
  lemma Conjunctions(style: Style, rest: seq<Token>)
    requires Proper(style)
    ensures var and, or := [Word(style, "AND")] + rest, [Word(style, "OR")] + rest;
      && Match(and, Identifier, "AND") == Ok((true, rest))
      && Match(or, Identifier, "OR") == Ok((true, rest))
      && Match(or, Identifier, "AND") == Ok((false, or))
  {
    WordAt(style, "AND", "AND", rest);
    WordAt(style, "OR", "OR", rest);
    WordAt(style, "OR", "AND", rest);
  }

  lemma {:induction false} PrimaryRead(style: Style, fp: FloatText, p: Predicate, rest: seq<Token>)
    requires Proper(style) && PredicateRereads(fp, p)
    ensures ParsePrimary(fp, ConditionSays(style, fp, p) + rest) == Ok((p, rest))
    decreases p
  {
    hide Clean, ParsePrimary, ParseOr, Rereads, ValueSays, Proper;
    if p.Comparison? {
      ComparisonRead(style, fp, p.column, p.op, p.value, rest);
    } else {
      var close := [CLOSE] + rest;
      var word := Word(style, if p.And? then "AND" else "OR");
      var right := ConditionSays(style, fp, p.right) + close;
      var inner := ConditionSays(style, fp, p.left) + ([word] + right);
      PrimaryRead(style, fp, p.left, [word] + right);
      PrimaryRead(style, fp, p.right, close);
      InnerSays(style, fp, p, rest);
      hide ConditionSays;
      if p.And? {
        AndRead(style, fp, p.left, p.right, inner, right, close);
      } else {
        OrRead(style, fp, p.left, p.right, inner, right, close);
      }
      Bracketed(fp, p, inner, rest);
    }
  }

  lemma InnerSays(style: Style, fp: FloatText, p: Predicate, rest: seq<Token>)
    requires !p.Comparison?
    ensures ConditionSays(style, fp, p) + rest ==
      [OPEN] + (ConditionSays(style, fp, p.left) + ([Word(style, if p.And? then "AND" else "OR")] +
      (ConditionSays(style, fp, p.right) + ([CLOSE] + rest))))
  {
    hide ValueSays;
  }

  lemma Bracketed(fp: FloatText, p: Predicate, inner: seq<Token>, rest: seq<Token>)
    requires ParseOr(fp, inner) == Ok((p, [CLOSE] + rest))
    ensures ParsePrimary(fp, [OPEN] + inner) == Ok((p, rest))
  {
    hide Clean, ParseOr;
    assert ([OPEN] + inner)[1..] == inner && ([CLOSE] + rest)[1..] == rest;
  }

  lemma AndRead(style: Style, fp: FloatText, l: Predicate, r: Predicate, inner: seq<Token>, right: seq<Token>,
      close: seq<Token>)
    requires Proper(style) && NoWord(close)
    requires ParsePrimary(fp, inner) == Ok((l, [Word(style, "AND")] + right))
    requires ParsePrimary(fp, right) == Ok((r, close))
    ensures ParseOr(fp, inner) == Ok((And(l, r), close))
  {
    hide Clean, ParsePrimary, EqualsIgnoreCase;
    Conjunctions(style, right);
    assert AndTail(fp, And(l, r), close) == Ok((And(l, r), close));
    assert AndTail(fp, l, [Word(style, "AND")] + right) == Ok((And(l, r), close));
  }

  lemma OrRead(style: Style, fp: FloatText, l: Predicate, r: Predicate, inner: seq<Token>, right: seq<Token>,
      close: seq<Token>)
    requires Proper(style) && NoWord(close)
    requires ParsePrimary(fp, inner) == Ok((l, [Word(style, "OR")] + right))
    requires ParsePrimary(fp, right) == Ok((r, close))
    ensures ParseOr(fp, inner) == Ok((Or(l, r), close))
  {
    hide Clean, ParsePrimary, EqualsIgnoreCase;
    Conjunctions(style, right);
    assert AndTail(fp, l, [Word(style, "OR")] + right) == Ok((l, [Word(style, "OR")] + right));
    assert AndTail(fp, r, close) == Ok((r, close));
    assert OrTail(fp, Or(l, r), close) == Ok((Or(l, r), close));
    assert OrTail(fp, l, [Word(style, "OR")] + right) == Ok((Or(l, r), close));
  }

  lemma ConditionRead(style: Style, fp: FloatText, p: Predicate, rest: seq<Token>)
    requires Proper(style) && PredicateRereads(fp, p) && Avoids(rest, ["AND", "OR"])
    ensures ParseOr(fp, ConditionSays(style, fp, p) + rest) == Ok((p, rest))
  {
    hide Clean, ParsePrimary, EqualsIgnoreCase, ConditionSays, Match;
    PrimaryRead(style, fp, p, rest);
    assert Match(rest, Identifier, ["AND", "OR"][0]) == Ok((false, rest));
    assert Match(rest, Identifier, ["AND", "OR"][1]) == Ok((false, rest));
    assert AndTail(fp, p, rest) == Ok((p, rest)) && OrTail(fp, p, rest) == Ok((p, rest));
  }

  lemma WhereRead(style: Style, fp: FloatText, where: Option<Predicate>, rest: seq<Token>)
    requires Proper(style) && SayableWhere(fp, where) && Avoids(rest, ["AND", "OR", "WHERE"])
    ensures ParseWhere(fp, WhereSays(style, fp, where) + rest) == Ok((where, rest))
  {
    hide Clean, ParseOr, EqualsIgnoreCase, ConditionSays, Match, PredicateRereads, ConditionNames;
    assert Match(rest, Identifier, ["AND", "OR", "WHERE"][2]) == Ok((false, rest));
    if where.None? {
      assert WhereSays(style, fp, where) + rest == rest;
    } else {
      var condition := ConditionSays(style, fp, where.value) + rest;
      FewerWords(rest);
      ConditionRead(style, fp, where.value, rest);
      WordAt(style, "WHERE", "WHERE", condition);
      assert WhereSays(style, fp, where) + rest == [Word(style, "WHERE")] + condition;
    }
  }

  lemma FewerWords(rest: seq<Token>)
    requires Avoids(rest, ["AND", "OR", "WHERE"])
    ensures Avoids(rest, ["AND", "OR"])
  {
    hide Match;
    forall i | 0 <= i < 2 ensures Match(rest, Identifier, ["AND", "OR"][i]) == Ok((false, rest)) {
      assert ["AND", "OR"][i] == ["AND", "OR", "WHERE"][i];
    }
  }

  // ----- The clauses of SELECT -----

  /** One of the words stands at the front, or no word at all. */
  ghost predicate Opens(style: Style, ts: seq<Token>, words: set<string>) {
    NoWord(ts) || (ts != [] && exists word :: word in words && Capitals(word) && ts[0] == Word(style, word))
  }

  lemma OtherWord(style: Style, ts: seq<Token>, words: set<string>, other: string)
    requires Proper(style) && Opens(style, ts, words) && Capitals(other) && other !in words
    ensures Match(ts, Identifier, other) == Ok((false, ts))
  {
    hide Clean, EqualsIgnoreCase;
    if NoWord(ts) {
      NoWordAvoids(ts, [other]);
      assert Match(ts, Identifier, [other][0]) == Ok((false, ts));
    } else {
      var word :| word in words && Capitals(word) && ts[0] == Word(style, word);
      WordAt(style, word, other, ts[1..]);
      assert [Word(style, word)] + ts[1..] == ts;
    }
  }

  lemma OpensWith(style: Style, word: string, ts: seq<Token>, words: set<string>)
    requires ts != [] && Capitals(word) && ts[0] == Word(style, word)
    ensures Opens(style, ts, words + {word})
  {
  }

  lemma OpensMore(style: Style, ts: seq<Token>, words: set<string>, word: string)
    requires Opens(style, ts, words)
    ensures Opens(style, ts, words + {word})
  {
    if !NoWord(ts) {
      var w :| w in words && Capitals(w) && ts[0] == Word(style, w);
      assert w in words + {word};
    }
  }

  /** The words that open a clause are different from each other and from those that stand inside one. */
  lemma ClauseWords()
    ensures var inside := {"AND", "OR", "DESC", "ASC"};
      && "LIMIT" !in inside && "ORDER" !in inside && "WHERE" !in inside && "JOIN" !in inside
    ensures "ORDER" !in {"LIMIT"} && "WHERE" !in {"LIMIT", "ORDER"} && "JOIN" !in {"LIMIT", "ORDER", "WHERE"}
  {
    assert "LIMIT"[0] == 'L' && "ORDER"[0] == 'O' && "WHERE"[0] == 'W' && "JOIN"[0] == 'J';
    assert "AND"[0] == 'A' && |"OR"| == 2 && "DESC"[0] == 'D' && "ASC"[0] == 'A';
  }

  function LimitPart(style: Style, tail: seq<Token>, limit: Option<nat>): seq<Token> {
    LimitSays(style, limit) + tail
  }

  function OrderPart(style: Style, tail: seq<Token>, orderBy: Option<OrderBy>, limit: Option<nat>): seq<Token> {
    OrderSays(style, orderBy) + LimitPart(style, tail, limit)
  }

  function WherePart(style: Style, tail: seq<Token>, fp: FloatText, where: Option<Predicate>, orderBy: Option<OrderBy>,
      limit: Option<nat>): seq<Token> {
    WhereSays(style, fp, where) + OrderPart(style, tail, orderBy, limit)
  }

  lemma LimitRead(style: Style, tail: seq<Token>, limit: Option<nat>)
    requires Proper(style) && Ends(tail) && (limit.Some? ==> limit.value < TWO_63)
    ensures ParseLimit(LimitPart(style, tail, limit)) == Ok((limit, tail))
    ensures Opens(style, LimitPart(style, tail, limit), {"LIMIT"})
  {
    hide Clean, EqualsIgnoreCase, ParseInt, IntText;
    var ts := LimitPart(style, tail, limit);
    if limit.None? {
      assert ts == tail;
      NoWordAvoids(ts, ["LIMIT"]);
      assert Match(ts, Identifier, ["LIMIT"][0]) == Ok((false, ts));
    } else {
      var count := [Token(Number, IntText(limit.value))] + tail;
      assert ts == [Word(style, "LIMIT")] + count;
      WordAt(style, "LIMIT", "LIMIT", count);
      IntRoundTrip(limit.value);
      assert count[1..] == tail;
      OpensWith(style, "LIMIT", ts, {});
      assert {} + {"LIMIT"} == {"LIMIT"};
    }
  }

  lemma OrderRead(style: Style, tail: seq<Token>, orderBy: Option<OrderBy>, limit: Option<nat>)
    requires Proper(style) && Ends(tail) && Opens(style, LimitPart(style, tail, limit), {"LIMIT"})
    ensures ParseOrderBy(OrderPart(style, tail, orderBy, limit)) == Ok((orderBy, LimitPart(style, tail, limit)))
    ensures Opens(style, OrderPart(style, tail, orderBy, limit), {"LIMIT", "ORDER"})
  {
    hide Clean, EqualsIgnoreCase, LimitPart, Match, Opens;
    var ts, after := OrderPart(style, tail, orderBy, limit), LimitPart(style, tail, limit);
    ClauseWords();
    if orderBy.None? {
      assert ts == after;
      OtherWord(style, after, {"LIMIT"}, "ORDER");
      OpensMore(style, after, {"LIMIT"}, "ORDER");
    } else {
      var direction := OrderSays(style, orderBy)[3..];
      var column := [Keyword(orderBy.value.column)] + (direction + after);
      assert ts == [Word(style, "ORDER")] + ([Word(style, "BY")] + column);
      WordAt(style, "ORDER", "ORDER", [Word(style, "BY")] + column);
      WordAt(style, "BY", "BY", column);
      TakeName(orderBy.value.column, direction + after);
      DirectionRead(style, orderBy.value.ascending, direction, after);
      OpensWith(style, "ORDER", ts, {"LIMIT"});
    }
    assert {"LIMIT"} + {"ORDER"} == {"LIMIT", "ORDER"};
  }

  lemma DirectionRead(style: Style, ascending: bool, direction: seq<Token>, after: seq<Token>)
    requires Proper(style) && Opens(style, after, {"LIMIT"})
    requires direction == if !ascending then [Word(style, "DESC")] else if style.asc then [Word(style, "ASC")] else []
    ensures var desc := Match(direction + after, Identifier, "DESC");
      && desc == Ok(if ascending then (false, direction + after) else (true, after))
      && (ascending ==>
            var asc := Match(direction + after, Identifier, "ASC"); asc.Ok? && asc.value.1 == after)
  {
    hide Clean, EqualsIgnoreCase, Match, Opens;
    ClauseWords();
    if !ascending {
      WordAt(style, "DESC", "DESC", after);
    } else if style.asc {
      assert "DESC"[0] != "ASC"[0];
      WordAt(style, "ASC", "DESC", after);
      WordAt(style, "ASC", "ASC", after);
    } else {
      assert direction + after == after;
      OtherWord(style, after, {"LIMIT"}, "DESC");
      OtherWord(style, after, {"LIMIT"}, "ASC");
    }
  }

  lemma WherePartRead(style: Style, tail: seq<Token>, fp: FloatText, where: Option<Predicate>, orderBy: Option<OrderBy>,
      limit: Option<nat>)
    requires Proper(style) && Ends(tail) && SayableWhere(fp, where)
    requires Opens(style, OrderPart(style, tail, orderBy, limit), {"LIMIT", "ORDER"})
    ensures ParseWhere(fp, WherePart(style, tail, fp, where, orderBy, limit)) ==
      Ok((where, OrderPart(style, tail, orderBy, limit)))
    ensures Opens(style, WherePart(style, tail, fp, where, orderBy, limit), {"LIMIT", "ORDER", "WHERE"})
  {
    hide Clean, EqualsIgnoreCase, OrderPart, Match, Opens, ParseWhere, ConditionSays, SayableWhere;
    var ts, after := WherePart(style, tail, fp, where, orderBy, limit), OrderPart(style, tail, orderBy, limit);
    ClauseWords();
    OtherWord(style, after, {"LIMIT", "ORDER"}, "AND");
    OtherWord(style, after, {"LIMIT", "ORDER"}, "OR");
    OtherWord(style, after, {"LIMIT", "ORDER"}, "WHERE");
    AvoidsThree(after);
    WhereRead(style, fp, where, after);
    if where.None? {
      assert ts == after;
      OpensMore(style, after, {"LIMIT", "ORDER"}, "WHERE");
    } else {
      OpensWith(style, "WHERE", ts, {"LIMIT", "ORDER"});
    }
    assert {"LIMIT", "ORDER"} + {"WHERE"} == {"LIMIT", "ORDER", "WHERE"};
  }

  lemma AvoidsThree(ts: seq<Token>)
    requires Match(ts, Identifier, "AND") == Ok((false, ts)) && Match(ts, Identifier, "OR") == Ok((false, ts))
    requires Match(ts, Identifier, "WHERE") == Ok((false, ts))
    ensures Avoids(ts, ["AND", "OR", "WHERE"])
  {
  }

  lemma JoinRead(style: Style, join: Option<JoinClause>, after: seq<Token>)
    requires Proper(style) && Opens(style, after, {"LIMIT", "ORDER", "WHERE"})
    ensures ParseJoin(JoinSays(style, join) + after) == Ok((join, after))
  {
    hide Clean, EqualsIgnoreCase, Match, Opens;
    ClauseWords();
    if join.None? {
      assert JoinSays(style, join) + after == after;
      OtherWord(style, after, {"LIMIT", "ORDER", "WHERE"}, "JOIN");
    } else {
      var j := join.value;
      var t5 := [Keyword(j.rightColumn)] + after;
      var t4 := [Token(Equal, "=")] + t5;
      var t3 := [Keyword(j.leftColumn)] + t4;
      var t2 := [Word(style, "ON")] + t3;
      var t1 := [Keyword(j.table)] + t2;
      assert JoinSays(style, join) + after == [Word(style, "JOIN")] + t1;
      WordAt(style, "JOIN", "JOIN", t1);
      WordAt(style, "ON", "ON", t3);
      TakeName(j.table, t2);
      TakeName(j.leftColumn, t4);
      Take(Token(Equal, "="), t5);
      TakeName(j.rightColumn, after);
    }
  }

  lemma SelectRead(style: Style, tail: seq<Token>, fp: FloatText, q: Command)
    requires Proper(style) && Ends(tail) && q.Select? && SayableSelect(fp, q)
    ensures var from := [Word(style, "FROM"), Keyword(q.table)] + JoinSays(style, q.join)
        + WherePart(style, tail, fp, q.where, q.orderBy, q.limit);
      ParseSelect(fp, SelectedSays(q.selected) + from) == Ok((q, tail))
  {
    hide Clean, EqualsIgnoreCase, Match, Opens, ParseSelected, ParseJoin, ParseWhere, ParseOrderBy, ParseLimit,
        SelectedSays, JoinSays, WherePart, OrderPart, LimitPart, SayableWhere, NamesIdentify, Identifies, NamedCommand;
    LimitRead(style, tail, q.limit);
    OrderRead(style, tail, q.orderBy, q.limit);
    WherePartRead(style, tail, fp, q.where, q.orderBy, q.limit);
    var t3 := WherePart(style, tail, fp, q.where, q.orderBy, q.limit);
    var t2 := JoinSays(style, q.join) + t3;
    var t1 := [Keyword(q.table)] + t2;
    JoinRead(style, q.join, t3);
    TakeName(q.table, t2);
    WordAt(style, "FROM", "FROM", t1);
    SelectedRead(q.selected, [Word(style, "FROM")] + t1);
    assert [Word(style, "FROM")] + t1 == [Word(style, "FROM"), Keyword(q.table)] + JoinSays(style, q.join) + t3;
  }

  // ----- The leading word -----

  const VERBS := ["CREATE", "DROP", "RENAME", "LIST", "INSERT", "SELECT", "UPDATE", "DELETE", "SAVE", "LOAD", "BEGIN",
    "COMMIT", "ROLLBACK", "PREPARE", "EXECUTE", "EXIT"]

  /** Length and first two letters tell the verbs apart. */
  function Mark(word: string): int
    requires |word| >= 2
  {
    |word| * 65536 + word[0] as int * 256 + word[1] as int
  }

  const MARKS := [410450, 279634, 414277, 281673, 411982, 414533, 415056, 410693, 283457, 281679, 344645, 410447,
    545359, 479314, 476504, 279896]

  lemma VerbsMarked(k: nat)
    requires k < |VERBS|
    ensures |VERBS[k]| >= 2 && Mark(VERBS[k]) == MARKS[k] && Capitals(VERBS[k])
  {
  }

  lemma VerbsDiffer(i: nat, j: nat)
    requires i < j < |VERBS|
    ensures VERBS[i] != VERBS[j]
  {
    hide Mark;
    VerbsMarked(i);
    VerbsMarked(j);
  }

  lemma VerbAt(style: Style, i: nat, j: nat, rest: seq<Token>)
    requires Proper(style) && i < |VERBS| && j < |VERBS|
    ensures At([Word(style, VERBS[i])] + rest, Identifier, VERBS[j]) <==> i == j
  {
    VerbsMarked(i);
    VerbsMarked(j);
    WordAt(style, VERBS[i], VERBS[j], rest);
    if i < j { VerbsDiffer(i, j); } else if j < i { VerbsDiffer(j, i); }
  }

  /** Statements that move data: the leading word picks the routine. */
  lemma DataVerb(style: Style, fp: FloatText, i: nat, rest: seq<Token>)
    requires Proper(style) && i < |VERBS|
    ensures var r := ParseStatement(fp, [Word(style, VERBS[i])] + rest);
      && (i == 0 ==> r == ParseCreate(rest)) && (i == 1 ==> r == ParseDropTable(rest))
      && (i == 2 ==> r == ParseRenameTable(rest))
      && (i == 3 ==> r == ListRead(rest))
      && (i == 4 ==> r == ParseInsert(fp, rest)) && (i == 5 ==> r == ParseSelect(fp, rest))
      && (i == 6 ==> r == ParseUpdate(fp, rest)) && (i == 7 ==> r == ParseDelete(fp, rest))
      && (i >= 8 ==> r == ParseControl(fp, [Word(style, VERBS[i])] + rest))
  {
    hide EqualsIgnoreCase, Clean, NamedCommand, ParseControl, At, Expect;
    hide ParseCreate, ParseDropTable, ParseRenameTable, ParseInsert, ParseUpdate, ParseDelete, ParseSelect;
    forall j: nat | j < 8 ensures At([Word(style, VERBS[i])] + rest, Identifier, VERBS[j]) <==> i == j {
      VerbAt(style, i, j, rest);
    }
    var ts := [Word(style, VERBS[i])] + rest;
    assert ts[1..] == rest;
    assert VERBS[0] == "CREATE" && VERBS[1] == "DROP" && VERBS[2] == "RENAME" && VERBS[3] == "LIST";
    assert VERBS[4] == "INSERT" && VERBS[5] == "SELECT" && VERBS[6] == "UPDATE" && VERBS[7] == "DELETE";
  }

  function ListRead(rest: seq<Token>): Parsed<Command> {
    var after :- Expect(rest, Identifier, "TABLES");
    Ok((ListTables, after))
  }

  function SaveRead(rest: seq<Token>): Parsed<Command> {
    var after :- Expect(rest, Identifier, "DATABASE");
    Ok((SaveDatabase, after))
  }

  /** The other statements. */
  lemma ControlVerb(style: Style, fp: FloatText, i: nat, rest: seq<Token>)
    requires Proper(style) && 8 <= i < |VERBS|
    ensures var r := ParseControl(fp, [Word(style, VERBS[i])] + rest);
      && (i == 8 ==> r == SaveRead(rest)) && (i == 9 ==> r == ParseLoad(rest))
      && (i == 10 ==> r == Ok((Begin, rest))) && (i == 11 ==> r == Ok((Commit, rest)))
      && (i == 12 ==> r == Ok((Rollback, rest))) && (i == 13 ==> r == ParsePrepare(rest))
      && (i == 14 ==> r == ParseExecute(fp, rest)) && (i == 15 ==> r == Ok((Exit, rest)))
  {
    hide EqualsIgnoreCase, Clean, NamedCommand, At, Expect, ParseLoad, ParsePrepare, ParseExecute;
    forall j: nat | 8 <= j < 16 ensures At([Word(style, VERBS[i])] + rest, Identifier, VERBS[j]) <==> i == j {
      VerbAt(style, i, j, rest);
    }
    var ts := [Word(style, VERBS[i])] + rest;
    assert ts[1..] == rest;
    assert VERBS[8] == "SAVE" && VERBS[9] == "LOAD" && VERBS[10] == "BEGIN" && VERBS[11] == "COMMIT";
    assert VERBS[12] == "ROLLBACK" && VERBS[13] == "PREPARE" && VERBS[14] == "EXECUTE" && VERBS[15] == "EXIT";
  }

  // ----- Statement by statement -----

  /** What a sentence followed by its ending parses to. */
  ghost predicate Says(style: Style, tail: seq<Token>, fp: FloatText, q: Command)
    requires Sayable(fp, q)
  {
    ParseStatement(fp, Sentence(style, fp, q) + tail) == Ok((q, tail))
  }

  lemma CreateKinds(style: Style, rest: seq<Token>)
    requires Proper(style)
    ensures ParseCreate([Word(style, "TABLE")] + rest) == ParseCreateTable(rest)
    ensures ParseCreate([Word(style, "INDEX")] + rest) == ParseCreateIndex(rest)
    ensures ParseCreate([Word(style, "DATABASE")] + rest) ==
      var name := Name(rest);
      if name.Err? then Err else Ok((CreateDatabase(name.value.0), name.value.1))
  {
    hide EqualsIgnoreCase, Clean, NamedCommand, ParseCreateTable, ParseCreateIndex, Name, At;
    assert "TABLE"[0] == 'T' && "INDEX"[0] == 'I' && "DATABASE"[0] == 'D';
    WordAt(style, "TABLE", "DATABASE", rest);
    WordAt(style, "TABLE", "TABLE", rest);
    WordAt(style, "INDEX", "DATABASE", rest);
    WordAt(style, "INDEX", "TABLE", rest);
    WordAt(style, "INDEX", "INDEX", rest);
    WordAt(style, "DATABASE", "DATABASE", rest);
    assert ([Word(style, "TABLE")] + rest)[1..] == rest && ([Word(style, "INDEX")] + rest)[1..] == rest;
    assert ([Word(style, "DATABASE")] + rest)[1..] == rest;
  }

  lemma SaysCreateDatabase(style: Style, tail: seq<Token>, fp: FloatText, name: string)
    requires Proper(style) && Ends(tail) && Identifies(name)
    ensures Says(style, tail, fp, CreateDatabase(name))
  {
    hide Clean, NamedCommand, ParseStatement, ParseCreate, Name, Identifies;
    var t1 := [Keyword(name)] + tail;
    var t0 := [Word(style, "DATABASE")] + t1;
    assert Sentence(style, fp, CreateDatabase(name)) + tail == [Word(style, VERBS[0])] + t0;
    DataVerb(style, fp, 0, t0);
    CreateKinds(style, t1);
    TakeName(name, tail);
  }

  lemma SaysCreateTable(style: Style, tail: seq<Token>, fp: FloatText, q: Command)
    requires Proper(style) && Ends(tail) && q.CreateTable? && Sayable(fp, q)
    ensures Says(style, tail, fp, q)
  {
    hide Clean, NamedCommand, ParseStatement, ParseCreate, Name, Identifies, ParseColumns, ColumnsSay, Expect;
    var t3 := [CLOSE] + tail;
    var t2 := ColumnsSay(style, q.columns) + t3;
    var t1 := [Keyword(q.name)] + ([OPEN] + t2);
    var t0 := [Word(style, "TABLE")] + t1;
    assert Sentence(style, fp, q) + tail == [Word(style, VERBS[0])] + t0;
    DataVerb(style, fp, 0, t0);
    CreateKinds(style, t1);
    TakeName(q.name, [OPEN] + t2);
    CommaOrClose(t2);
    CommaOrClose(tail);
    ColumnsRead(style, q.columns, tail);
  }

  lemma SaysCreateIndex(style: Style, tail: seq<Token>, fp: FloatText, q: Command)
    requires Proper(style) && Ends(tail) && q.CreateIndex? && Sayable(fp, q)
    ensures Says(style, tail, fp, q)
  {
    hide Clean, NamedCommand, ParseStatement, ParseCreate, Name, Identifies, Expect;
    var t6 := [CLOSE] + tail;
    var t5 := [Keyword(q.column)] + t6;
    var t4 := [OPEN] + t5;
    var t3 := [Keyword(q.table)] + t4;
    var t2 := [Word(style, "ON")] + t3;
    var t1 := [Keyword(q.name)] + t2;
    var t0 := [Word(style, "INDEX")] + t1;
    assert Sentence(style, fp, q) + tail == [Word(style, VERBS[0])] + t0;
    DataVerb(style, fp, 0, t0);
    CreateKinds(style, t1);
    TakeName(q.name, t2);
    WordAt(style, "ON", "ON", t3);
    TakeName(q.table, t4);
    CommaOrClose(t5);
    TakeName(q.column, t6);
    CommaOrClose(tail);
  }

  lemma SaysDropTable(style: Style, tail: seq<Token>, fp: FloatText, name: string)
    requires Proper(style) && Ends(tail) && Identifies(name)
    ensures Says(style, tail, fp, DropTable(name))
  {
    hide Clean, NamedCommand, ParseStatement, Name, Identifies, Expect;
    var t1 := [Keyword(name)] + tail;
    var t0 := [Word(style, "TABLE")] + t1;
    assert Sentence(style, fp, DropTable(name)) + tail == [Word(style, VERBS[1])] + t0;
    DataVerb(style, fp, 1, t0);
    WordAt(style, "TABLE", "TABLE", t1);
    TakeName(name, tail);
  }

  lemma SaysRenameTable(style: Style, tail: seq<Token>, fp: FloatText, q: Command)
    requires Proper(style) && Ends(tail) && q.RenameTable? && Sayable(fp, q)
    ensures Says(style, tail, fp, q)
  {
    hide Clean, NamedCommand, ParseStatement, Name, Identifies, Expect;
    var t3 := [Keyword(q.newName)] + tail;
    var t2 := [Word(style, "TO")] + t3;
    var t1 := [Keyword(q.oldName)] + t2;
    var t0 := [Word(style, "TABLE")] + t1;
    assert Sentence(style, fp, q) + tail == [Word(style, VERBS[2])] + t0;
    DataVerb(style, fp, 2, t0);
    WordAt(style, "TABLE", "TABLE", t1);
    TakeName(q.oldName, t2);
    WordAt(style, "TO", "TO", t3);
    TakeName(q.newName, tail);
  }

  lemma SaysInsert(style: Style, tail: seq<Token>, fp: FloatText, q: Command)
    requires Proper(style) && Ends(tail) && q.Insert? && Sayable(fp, q)
    ensures Says(style, tail, fp, q)
  {
    hide Clean, NamedCommand, ParseStatement, Name, Identifies, Expect, ParseTuples, TuplesSay, RowRereads;
    var t3 := TuplesSay(style, fp, q.rows) + tail;
    var t2 := [Word(style, "VALUES")] + t3;
    var t1 := [Keyword(q.table)] + t2;
    var t0 := [Word(style, "INTO")] + t1;
    assert Sentence(style, fp, q) + tail == [Word(style, VERBS[4])] + t0;
    DataVerb(style, fp, 4, t0);
    WordAt(style, "INTO", "INTO", t1);
    TakeName(q.table, t2);
    WordAt(style, "VALUES", "VALUES", t3);
    TuplesRead(style, fp, q.rows, tail);
  }

  lemma SaysSelect(style: Style, tail: seq<Token>, fp: FloatText, q: Command)
    requires Proper(style) && Ends(tail) && q.Select? && Sayable(fp, q)
    ensures Says(style, tail, fp, q)
  {
    hide Clean, NamedCommand, ParseStatement, Identifies, ParseSelect, SelectedSays, JoinSays, WhereSays, OrderSays,
        LimitSays, SayableSelect;
    var t0 := SelectedSays(q.selected) + ([Word(style, "FROM"), Keyword(q.table)] + JoinSays(style, q.join)
      + WherePart(style, tail, fp, q.where, q.orderBy, q.limit));
    assert Sentence(style, fp, q) + tail == [Word(style, VERBS[5])] + t0;
    DataVerb(style, fp, 5, t0);
    SelectRead(style, tail, fp, q);
  }

  lemma SaysUpdate(style: Style, tail: seq<Token>, fp: FloatText, q: Command)
    requires Proper(style) && Ends(tail) && q.Update? && Sayable(fp, q)
    ensures Says(style, tail, fp, q)
  {
    hide Clean, NamedCommand, ParseStatement, Name, Identifies, Expect, ParseValue, ParseWhere, WhereSays, ValueSays,
        SayableWhere, Rereads;
    var t6 := WhereSays(style, fp, q.where) + tail;
    var t5 := [ValueSays(style, fp, q.value)] + t6;
    var t4 := [Token(Equal, "=")] + t5;
    var t3 := [Keyword(q.column)] + t4;
    var t2 := [Word(style, "SET")] + t3;
    var t1 := [Keyword(q.table)] + t2;
    assert Sentence(style, fp, q) + tail == [Word(style, VERBS[6])] + t1;
    DataVerb(style, fp, 6, t1);
    TakeName(q.table, t2);
    WordAt(style, "SET", "SET", t3);
    TakeName(q.column, t4);
    Take(Token(Equal, "="), t5);
    ValueRead(style, fp, q.value, t6);
    NoWordAvoids(tail, ["AND", "OR", "WHERE"]);
    WhereRead(style, fp, q.where, tail);
  }

  lemma SaysDelete(style: Style, tail: seq<Token>, fp: FloatText, q: Command)
    requires Proper(style) && Ends(tail) && q.Delete? && Sayable(fp, q)
    ensures Says(style, tail, fp, q)
  {
    hide Clean, NamedCommand, ParseStatement, Name, Identifies, Expect, ParseWhere, WhereSays, SayableWhere;
    var t2 := WhereSays(style, fp, q.where) + tail;
    var t1 := [Keyword(q.table)] + t2;
    var t0 := [Word(style, "FROM")] + t1;
    assert Sentence(style, fp, q) + tail == [Word(style, VERBS[7])] + t0;
    DataVerb(style, fp, 7, t0);
    WordAt(style, "FROM", "FROM", t1);
    TakeName(q.table, t2);
    NoWordAvoids(tail, ["AND", "OR", "WHERE"]);
    WhereRead(style, fp, q.where, tail);
  }

  /** Verb `i` stands at the front of a sentence that is not about data. */
  lemma SaysControl(style: Style, tail: seq<Token>, fp: FloatText, q: Command, i: nat, rest: seq<Token>)
    requires Proper(style) && Ends(tail) && Sayable(fp, q) && 8 <= i < |VERBS|
    requires Sentence(style, fp, q) + tail == [Word(style, VERBS[i])] + rest
    requires ParseControl(fp, [Word(style, VERBS[i])] + rest) == Ok((q, tail))
    ensures Says(style, tail, fp, q)
  {
    hide Clean, NamedCommand, ParseStatement, ParseControl, Sentence;
    DataVerb(style, fp, i, rest);
  }

  lemma SaysWord(style: Style, tail: seq<Token>, fp: FloatText, q: Command)
    requires Proper(style) && Ends(tail) && (q.Begin? || q.Commit? || q.Rollback? || q.Exit?)
    ensures Says(style, tail, fp, q)
  {
    hide Clean, NamedCommand, ParseStatement, ParseControl, Says;
    var i := if q.Begin? then 10 else if q.Commit? then 11 else if q.Rollback? then 12 else 15;
    ControlVerb(style, fp, i, tail);
    SaysControl(style, tail, fp, q, i, tail);
  }

  lemma SaysListTables(style: Style, tail: seq<Token>, fp: FloatText)
    requires Proper(style) && Ends(tail)
    ensures Says(style, tail, fp, ListTables)
  {
    hide Clean, NamedCommand, ParseStatement, Expect;
    var t0 := [Word(style, "TABLES")] + tail;
    WordAt(style, "TABLES", "TABLES", tail);
    assert Sentence(style, fp, ListTables) + tail == [Word(style, VERBS[3])] + t0;
    DataVerb(style, fp, 3, t0);
  }

  lemma SaysSave(style: Style, tail: seq<Token>, fp: FloatText)
    requires Proper(style) && Ends(tail)
    ensures Says(style, tail, fp, SaveDatabase)
  {
    hide Clean, NamedCommand, ParseStatement, ParseControl, Expect, Says;
    var t0 := [Word(style, "DATABASE")] + tail;
    WordAt(style, "DATABASE", "DATABASE", tail);
    assert Sentence(style, fp, SaveDatabase) + tail == [Word(style, VERBS[8])] + t0;
    ControlVerb(style, fp, 8, t0);
    SaysControl(style, tail, fp, SaveDatabase, 8, t0);
  }

  lemma LoadRead(style: Style, source: Option<string>, tail: seq<Token>)
    requires Proper(style) && Ends(tail)
    ensures ParseLoad([Word(style, "DATABASE")] + ((if source.Some? then [Keyword(source.value)] else []) + tail)) ==
      Ok((LoadDatabase(source), tail))
  {
    hide Clean, NamedCommand, Expect, EqualsIgnoreCase;
    var rest := (if source.Some? then [Keyword(source.value)] else []) + tail;
    WordAt(style, "DATABASE", "DATABASE", rest);
    if source.Some? {
      assert rest[1..] == tail;
    } else {
      assert rest == tail;
    }
  }

  lemma SaysLoad(style: Style, tail: seq<Token>, fp: FloatText, q: Command)
    requires Proper(style) && Ends(tail) && q.LoadDatabase? && Sayable(fp, q)
    ensures Says(style, tail, fp, q)
  {
    hide Clean, NamedCommand, ParseStatement, ParseControl, ParseLoad, Identifies, Says, Proper, Ends;
    var rest := (if q.source.Some? then [Keyword(q.source.value)] else []) + tail;
    var t0 := [Word(style, "DATABASE")] + rest;
    LoadRead(style, q.source, tail);
    assert Sentence(style, fp, q) + tail == [Word(style, VERBS[9])] + t0;
    ControlVerb(style, fp, 9, t0);
    SaysControl(style, tail, fp, q, 9, t0);
  }

  lemma SaysPrepare(style: Style, tail: seq<Token>, fp: FloatText, q: Command)
    requires Proper(style) && Ends(tail) && q.Prepare? && Sayable(fp, q)
    ensures Says(style, tail, fp, q)
  {
    hide Clean, NamedCommand, ParseStatement, ParseControl, Expect, Name, Identifies, Says;
    var t2 := [Token(StringLiteral, q.sql)] + tail;
    var t1 := [Word(style, "AS")] + t2;
    var t0 := [Keyword(q.name)] + t1;
    TakeName(q.name, t1);
    WordAt(style, "AS", "AS", t2);
    assert t2[1..] == tail;
    assert Sentence(style, fp, q) + tail == [Word(style, VERBS[13])] + t0;
    ControlVerb(style, fp, 13, t0);
    SaysControl(style, tail, fp, q, 13, t0);
  }

  function ParametersSay(style: Style, fp: FloatText, parameters: seq<Value>): seq<Token> {
    if parameters == [] then [] else [Word(style, "VALUES")] + TupleSays(style, fp, parameters)
  }

  lemma ExecuteRead(style: Style, fp: FloatText, name: string, parameters: seq<Value>, tail: seq<Token>)
    requires Proper(style) && Ends(tail) && RowRereads(fp, parameters)
    ensures ParseExecute(fp, [Keyword(name)] + (ParametersSay(style, fp, parameters) + tail)) ==
      Ok((Execute(name, parameters), tail))
  {
    hide Clean, NamedCommand, Match, Name, TupleSays, ParseTuple, RowRereads, EqualsIgnoreCase;
    var rest := ParametersSay(style, fp, parameters) + tail;
    TakeName(name, rest);
    if parameters == [] {
      assert rest == tail;
      NoWordAvoids(rest, ["VALUES"]);
      assert Match(rest, Identifier, ["VALUES"][0]) == Ok((false, rest));
    } else {
      var tuple := TupleSays(style, fp, parameters) + tail;
      assert rest == [Word(style, "VALUES")] + tuple;
      WordAt(style, "VALUES", "VALUES", tuple);
      TupleRead(style, fp, parameters, tail);
    }
  }

  lemma SaysExecute(style: Style, tail: seq<Token>, fp: FloatText, q: Command)
    requires Proper(style) && Ends(tail) && q.Execute? && Sayable(fp, q)
    ensures Says(style, tail, fp, q)
  {
    hide Clean, NamedCommand, ParseStatement, ParseControl, ParseExecute, Identifies, Says, TupleSays, RowRereads,
        Proper, Ends;
    var t0 := [Keyword(q.name)] + (ParametersSay(style, fp, q.parameters) + tail);
    ExecuteRead(style, fp, q.name, q.parameters, tail);
    assert Sentence(style, fp, q) + tail == [Word(style, VERBS[14])] + t0;
    ControlVerb(style, fp, 14, t0);
    SaysControl(style, tail, fp, q, 14, t0);
  }

  lemma EverySentence(style: Style, tail: seq<Token>, fp: FloatText, q: Command)
    requires Proper(style) && Ends(tail) && Sayable(fp, q)
    ensures Says(style, tail, fp, q)
  {
    hide Says, Proper, SayableSelect, SayableWhere, Identifies, RowRereads, Rereads;
    match q
    case CreateDatabase(name) => SaysCreateDatabase(style, tail, fp, name);
    case CreateTable(_, _) => SaysCreateTable(style, tail, fp, q);
    case DropTable(name) => SaysDropTable(style, tail, fp, name);
    case RenameTable(_, _) => SaysRenameTable(style, tail, fp, q);
    case ListTables => SaysListTables(style, tail, fp);
    case Insert(_, _) => SaysInsert(style, tail, fp, q);
    case Select(_, _, _, _, _, _) => SaysSelect(style, tail, fp, q);
    case Update(_, _, _, _) => SaysUpdate(style, tail, fp, q);
    case Delete(_, _) => SaysDelete(style, tail, fp, q);
    case CreateIndex(_, _, _) => SaysCreateIndex(style, tail, fp, q);
    case SaveDatabase => SaysSave(style, tail, fp);
    case LoadDatabase(_) => SaysLoad(style, tail, fp, q);
    case Begin => SaysWord(style, tail, fp, q);
    case Commit => SaysWord(style, tail, fp, q);
    case Rollback => SaysWord(style, tail, fp, q);
    case Prepare(_, _) => SaysPrepare(style, tail, fp, q);
    case Execute(_, _) => SaysExecute(style, tail, fp, q);
    case Exit => SaysWord(style, tail, fp, q);
  }

  // ----- The round trip -----

  /** The sentence as text, each token followed by the style's gap. */
  function Text(style: Style, fp: FloatText, q: Command): string
    requires Sayable(fp, q)
  {
    Spaced(Sentence(style, fp, q) + if style.semicolon then [SEMICOLON] else [], style.gap)
  }

  /**
   Whatever statement is said, and however it is written, tokenizing and parsing its text gives that very statement
   back.
   */
  lemma TextReadsBack(style: Style, fp: FloatText, q: Command)
    requires Proper(style) && Sayable(fp, q)
    ensures Parse(fp, Text(style, fp, q)) == Ok(q)
  {
    hide Lex, Clean, NamedCommand, ParseStatement, Sentence, Written, SayableSelect, SayableWhere, Identifies, Spaced;
    var mark := if style.semicolon then [SEMICOLON] else [];
    var ending := mark + [END];
    var ts := Sentence(style, fp, q) + mark;
    SentenceWritten(style, fp, q);
    MarkWritten();
    SpacedLexes(ts, style.gap);
    EverySentence(style, ending, fp, q);
    assert ts + [END] == Sentence(style, fp, q) + ending;
    EndingEnds(ending, style.semicolon);
  }

  lemma MarkWritten()
    ensures Written(SEMICOLON)
  {
  }

  lemma EndingEnds(ending: seq<Token>, semicolon: bool)
    requires ending == (if semicolon then [SEMICOLON] else []) + [END]
    ensures StatementEnd(ending) == Ok(())
  {
    assert [SEMICOLON, END][1..] == [END];
  }

  /** After its semicolon nothing may follow a statement: any further token makes the text an error. */
  lemma NothingFollows(style: Style, fp: FloatText, q: Command, more: seq<Token>)
    requires Proper(style) && Sayable(fp, q) && more != [] && more[0].kind != End
    ensures ParseTokens(fp, Sentence(style, fp, q) + ([SEMICOLON] + more)) == Err
  {
    hide Clean, NamedCommand, ParseStatement, Sentence, SayableSelect, SayableWhere, Identifies;
    var tail := [SEMICOLON] + more;
    EverySentence(style, tail, fp, q);
    assert tail[1..] == more;
  }
}
