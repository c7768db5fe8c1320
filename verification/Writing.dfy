/** Sentences as text: every token list can be written down, and tokenizing what is written gives the tokens back. */
module Writing {
  import opened Results
  import opened Values
  import opened Ast
  import opened Lexer
  import opened SqlText
  import opened LiteralText
  import opened SqlRoundTrip
  import opened Sentences

  // ----- From text to tokens -----

  /** The text of a token. */
  function TokenText(t: Token): string {
    if t.kind == StringLiteral then "\"" + Escape(t.lexeme) + "\"" else t.lexeme
  }

  /** Tokens a text can have: names, number texts, strings, and marks under their own spelling. */
  predicate Written(t: Token) {
    match t.kind
    case Identifier => Identifies(t.lexeme)
    case Number => IsNumberText(t.lexeme)
    case StringLiteral => true
    case Comma => t.lexeme == ","
    case Semicolon => t.lexeme == ";"
    case LeftParen => t.lexeme == "("
    case RightParen => t.lexeme == ")"
    case Star => t.lexeme == "*"
    case Equal => t.lexeme == "="
    case Greater => t.lexeme == ">"
    case Less => t.lexeme == "<"
    case End => false
  }

  /** The tokens one after the other, each followed by a gap. */
  function Spaced(ts: seq<Token>, gap: string): string {
    if ts == [] then "" else TokenText(ts[0]) + gap + Spaced(ts[1..], gap)
  }

  lemma {:induction false} LexBlanks(gap: string)
    requires forall i :: 0 <= i < |gap| ==> Blank(gap[i])
    ensures Lex(gap) == Ok([])
  {
    if gap != [] {
      assert IsSpace(gap[0]);
      LexBlanks(gap[1..]);
    }
  }

  lemma IdentifiesIsName(name: string)
    requires Identifies(name)
    ensures IsName(name)
  {
  }

  lemma LexToken(t: Token)
    requires Written(t)
    ensures Lex(TokenText(t)) == Ok([t])
  {
    hide Lex;
    match t.kind
    case Identifier => IdentifiesIsName(t.lexeme); LexName(t.lexeme);
    case Number => LexNumber(t.lexeme);
    case StringLiteral => LexQuoted(t.lexeme);
    case Comma | Semicolon | LeftParen | RightParen | Star | Equal | Greater | Less => LexMark(t.lexeme[0]);
  }

  lemma {:induction false} SpacedLexes(ts: seq<Token>, gap: string)
    requires gap != "" && (forall i :: 0 <= i < |gap| ==> Blank(gap[i]))
    requires forall i :: 0 <= i < |ts| ==> Written(ts[i])
    ensures Lex(Spaced(ts, gap)) == Ok(ts)
  {
    hide Lex, Written, TokenText;
    if ts == [] {
      LexBlanks("");
    } else {
      var rest := Spaced(ts[1..], gap);
      LexToken(ts[0]);
      LexBlanks(gap);
      SpacedLexes(ts[1..], gap);
      GapIsSafe(TokenText(ts[0]), gap, rest);
      Join(TokenText(ts[0]), [ts[0]], gap, []);
      Join(TokenText(ts[0]) + gap, [ts[0]] + [], rest, ts[1..]);
      assert [ts[0]] + [] + ts[1..] == ts;
    }
  }

  lemma GapIsSafe(text: string, gap: string, rest: string)
    requires gap != "" && (forall i :: 0 <= i < |gap| ==> Blank(gap[i]))
    ensures SafeBoundary(text, gap) && SafeBoundary(text + gap, rest)
  {
    assert (text + gap)[|text + gap| - 1] == gap[|gap| - 1];
  }

  // ----- Sentences can be written -----

  predicate AllWritten(ts: seq<Token>) {
    forall i :: 0 <= i < |ts| ==> Written(ts[i])
  }

  lemma WordWritten(style: Style, word: string)
    requires Proper(style) && Capitals(word)
    ensures Written(Word(style, word))
  {
    assert CaseOf(style.spell(word), word);
  }

  lemma WordsWritten(style: Style)
    requires Proper(style)
    ensures forall word :: Capitals(word) ==> Written(Word(style, word))
  {
    hide Written, Proper, Capitals;
    forall word | Capitals(word) ensures Written(Word(style, word)) {
      WordWritten(style, word);
    }
  }

  lemma ValueWritten(style: Style, fp: FloatText, v: Value)
    requires Proper(style) && Rereads(fp, v)
    ensures Written(ValueSays(style, fp, v))
  {
    if v.Null? {
      WordWritten(style, "NULL");
    } else if v.Int? {
      IntRoundTrip(v.i);
    }
  }

  lemma {:induction false} ValuesWritten(style: Style, fp: FloatText, row: Row)
    requires Proper(style) && RowRereads(fp, row)
    ensures AllWritten(ValuesSay(style, fp, row))
  {
    hide Rereads, ValueSays, Proper;
    if row != [] {
      ValueWritten(style, fp, row[0]);
      ValuesWritten(style, fp, row[1..]);
    }
  }

  lemma {:induction false} TuplesWritten(style: Style, fp: FloatText, rows: seq<Row>)
    requires Proper(style) && forall i :: 0 <= i < |rows| ==> RowRereads(fp, rows[i])
    ensures AllWritten(TuplesSay(style, fp, rows))
  {
    hide RowRereads, ValuesSay, Proper;
    if rows != [] {
      ValuesWritten(style, fp, rows[0]);
      TuplesWritten(style, fp, rows[1..]);
    }
  }

  lemma {:induction false} NamesWritten(names: seq<string>)
    requires NamesIdentify(names)
    ensures AllWritten(NamesSay(names))
  {
    hide Identifies;
    if names != [] {
      NamesWritten(names[1..]);
    }
  }

  lemma {:induction false} ColumnsWritten(style: Style, columns: seq<Column>)
    requires Proper(style)
    requires forall i :: 0 <= i < |columns| ==> Identifies(columns[i].name) && !columns[i].ctype.OtherType?
    ensures AllWritten(ColumnsSay(style, columns))
  {
    hide Identifies, Proper, Word;
    if columns != [] {
      WordsWritten(style);
      assert Capitals(TypeWord(columns[0].ctype)) && Capitals("NOT") && Capitals("NULL");
      assert AllWritten(ColumnSays(style, columns[0]));
      ColumnsWritten(style, columns[1..]);
    }
  }

  lemma {:induction false} ConditionWritten(style: Style, fp: FloatText, p: Predicate)
    requires Proper(style) && ConditionNames(p) && PredicateRereads(fp, p)
    ensures AllWritten(ConditionSays(style, fp, p))
  {
    hide Rereads, ValueSays, Identifies, Proper, Word;
    if p.Comparison? {
      ValueWritten(style, fp, p.value);
    } else {
      WordsWritten(style);
      assert Capitals("AND") && Capitals("OR");
      ConditionWritten(style, fp, p.left);
      ConditionWritten(style, fp, p.right);
    }
  }

  lemma WhereWritten(style: Style, fp: FloatText, where: Option<Predicate>)
    requires Proper(style) && SayableWhere(fp, where)
    ensures AllWritten(WhereSays(style, fp, where))
  {
    hide ConditionSays, PredicateRereads, ConditionNames, Proper, Word;
    WordsWritten(style);
    assert Capitals("WHERE");
    if where.Some? {
      ConditionWritten(style, fp, where.value);
    }
  }

  lemma SelectWritten(style: Style, fp: FloatText, q: Command)
    requires Proper(style) && q.Select? && Sayable(fp, q)
    ensures AllWritten(Sentence(style, fp, q))
  {
    hide WhereSays, SayableWhere, Proper, Word, IntText, Identifies, NamesSay;
    WordsWritten(style);
    assert Capitals("SELECT") && Capitals("FROM") && Capitals("JOIN") && Capitals("ON");
    WhereWritten(style, fp, q.where);
    if q.selected != ["*"] { NamesWritten(q.selected); }
    assert AllWritten(SelectedSays(q.selected));
    JoinWritten(style, q.join);
    OrderWritten(style, q.orderBy);
    LimitWritten(style, q.limit);
    hide Sentence, SelectedSays, JoinSays, OrderSays, LimitSays, Written, Capitals;
    SelectSays(style, fp, q);
  }

  lemma SelectSays(style: Style, fp: FloatText, q: Command)
    requires q.Select? && AllWritten([Word(style, "SELECT")]) && AllWritten([Word(style, "FROM"), Keyword(q.table)])
    requires AllWritten(SelectedSays(q.selected)) && AllWritten(JoinSays(style, q.join))
    requires AllWritten(WhereSays(style, fp, q.where)) && AllWritten(OrderSays(style, q.orderBy))
    requires AllWritten(LimitSays(style, q.limit))
    ensures AllWritten(Sentence(style, fp, q))
  {
    hide SelectedSays, JoinSays, WhereSays, OrderSays, LimitSays, Written, Word;
  }

  lemma JoinWritten(style: Style, join: Option<JoinClause>)
    requires Proper(style)
    requires join.Some? ==> NamesIdentify([join.value.table, join.value.leftColumn, join.value.rightColumn])
    ensures AllWritten(JoinSays(style, join))
  {
    hide Identifies, Proper, Word;
    WordsWritten(style);
    assert Capitals("JOIN") && Capitals("ON");
    if join.Some? {
      var names := [join.value.table, join.value.leftColumn, join.value.rightColumn];
      assert Identifies(names[0]) && Identifies(names[1]) && Identifies(names[2]);
    }
  }

  lemma OrderWritten(style: Style, orderBy: Option<OrderBy>)
    requires Proper(style) && (orderBy.Some? ==> Identifies(orderBy.value.column))
    ensures AllWritten(OrderSays(style, orderBy))
  {
    hide Identifies, Proper, Word;
    WordsWritten(style);
    assert Capitals("ORDER") && Capitals("BY") && Capitals("ASC") && Capitals("DESC");
  }

  lemma LimitWritten(style: Style, limit: Option<nat>)
    requires Proper(style) && (limit.Some? ==> limit.value < TWO_63)
    ensures AllWritten(LimitSays(style, limit))
  {
    hide Proper, Word, IntText;
    WordsWritten(style);
    assert Capitals("LIMIT");
    if limit.Some? { IntRoundTrip(limit.value); }
  }

  lemma CreateTableWritten(style: Style, fp: FloatText, q: Command)
    requires Proper(style) && Sayable(fp, q) && q.CreateTable?
    ensures AllWritten(Sentence(style, fp, q))
  {
    hide Proper, Word, Identifies, ColumnsSay;
    WordsWritten(style);
    assert Capitals("CREATE") && Capitals("TABLE");
    ColumnsWritten(style, q.columns);
  }

  lemma InsertWritten(style: Style, fp: FloatText, q: Command)
    requires Proper(style) && Sayable(fp, q) && q.Insert?
    ensures AllWritten(Sentence(style, fp, q))
  {
    hide Proper, Word, Identifies, TuplesSay, RowRereads;
    WordsWritten(style);
    assert Capitals("INSERT") && Capitals("INTO") && Capitals("VALUES");
    TuplesWritten(style, fp, q.rows);
  }

  lemma ExecuteWritten(style: Style, fp: FloatText, q: Command)
    requires Proper(style) && Sayable(fp, q) && q.Execute?
    ensures AllWritten(Sentence(style, fp, q))
  {
    hide Proper, Word, Identifies, ValuesSay, RowRereads;
    WordsWritten(style);
    assert Capitals("EXECUTE") && Capitals("VALUES");
    ValuesWritten(style, fp, q.parameters);
  }

  lemma ChangeWritten(style: Style, fp: FloatText, q: Command)
    requires Proper(style) && Sayable(fp, q) && (q.Update? || q.Delete?)
    ensures AllWritten(Sentence(style, fp, q))
  {
    hide WhereSays, SayableWhere, Proper, Word, Identifies, ValueSays, Rereads;
    WordsWritten(style);
    assert Capitals("UPDATE") && Capitals("SET") && Capitals("DELETE") && Capitals("FROM");
    WhereWritten(style, fp, q.where);
    if q.Update? { ValueWritten(style, fp, q.value); }
  }

  lemma SchemaWritten(style: Style, fp: FloatText, q: Command)
    requires Proper(style) && Sayable(fp, q)
    requires q.CreateDatabase? || q.DropTable? || q.RenameTable? || q.CreateIndex?
    ensures AllWritten(Sentence(style, fp, q))
  {
    hide Proper, Word, Identifies;
    WordsWritten(style);
    assert Capitals("CREATE") && Capitals("DATABASE") && Capitals("DROP") && Capitals("TABLE") && Capitals("RENAME");
    assert Capitals("TO") && Capitals("INDEX") && Capitals("ON");
  }

  lemma ControlWritten(style: Style, fp: FloatText, q: Command)
    requires Proper(style) && Sayable(fp, q)
    requires q.ListTables? || q.SaveDatabase? || q.LoadDatabase? || q.Prepare?
    ensures AllWritten(Sentence(style, fp, q))
  {
    hide Proper, Word, Identifies;
    WordsWritten(style);
    assert Capitals("LIST") && Capitals("TABLES") && Capitals("SAVE") && Capitals("LOAD") && Capitals("DATABASE");
    assert Capitals("PREPARE") && Capitals("AS");
  }

  lemma VerbWritten(style: Style, fp: FloatText, q: Command)
    requires Proper(style) && (q.Begin? || q.Commit? || q.Rollback? || q.Exit?)
    ensures AllWritten(Sentence(style, fp, q))
  {
    hide Proper, Word;
    WordsWritten(style);
    assert Capitals("BEGIN") && Capitals("COMMIT") && Capitals("ROLLBACK") && Capitals("EXIT");
  }

  lemma SentenceWritten(style: Style, fp: FloatText, q: Command)
    requires Proper(style) && Sayable(fp, q)
    ensures AllWritten(Sentence(style, fp, q))
  {
    hide Sentence, Proper, AllWritten, SayableSelect, SayableWhere, Identifies, RowRereads, Rereads;
    if q.Select? {
      SelectWritten(style, fp, q);
    } else if q.CreateTable? {
      CreateTableWritten(style, fp, q);
    } else if q.Insert? {
      InsertWritten(style, fp, q);
    } else if q.Execute? {
      ExecuteWritten(style, fp, q);
    } else if q.Update? || q.Delete? {
      ChangeWritten(style, fp, q);
    } else if q.CreateDatabase? || q.DropTable? || q.RenameTable? || q.CreateIndex? {
      SchemaWritten(style, fp, q);
    } else if q.ListTables? || q.SaveDatabase? || q.LoadDatabase? || q.Prepare? {
      ControlWritten(style, fp, q);
    } else {
      VerbWritten(style, fp, q);
    }
  }
}
