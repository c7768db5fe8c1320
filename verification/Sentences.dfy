/**
 Every statement as a user may write it, and what the parser makes of it. A sentence is a list of tokens laid down here
 without reference to the parser; keywords may be written in any case, any blanks may separate the tokens, and what the
 language lets one leave out may be left out.
 */
module Sentences {
  import opened Results
  import opened Values
  import opened Ast
  import opened SqlText
  import opened Grammar
  import opened LiteralText
  import opened SqlRoundTrip

  // ----- Ways of writing -----

  /** How keywords are spelled, what separates tokens, and which optional words are written. */
  datatype Style = Style(spell: string -> string, gap: string, notNull: bool, asc: bool, semicolon: bool)

  predicate Capitals(word: string) {
    word != "" && forall i :: 0 <= i < |word| ==> 'A' <= word[i] <= 'Z'
  }

  /** The word itself, with any of its letters in lower case. */
  predicate CaseOf(spelled: string, word: string) {
    |spelled| == |word| &&
    forall i :: 0 <= i < |word| ==> spelled[i] == word[i] || spelled[i] as int == word[i] as int + 32
  }

  predicate Blank(c: char) {
    c == ' ' || c == '\t' || c == '\n' || c == '\r' || c as int == 11 || c as int == 12
  }

  ghost predicate Proper(style: Style) {
    && style.gap != "" && (forall i :: 0 <= i < |style.gap| ==> Blank(style.gap[i]))
    && forall word :: Capitals(word) ==> CaseOf(style.spell(word), word)
  }

  predicate Letter(c: char) {
    'a' <= c <= 'z' || 'A' <= c <= 'Z' || c == '_'
  }

  /** A letter or underscore, then letters, digits, underscores and points. */
  predicate Identifies(name: string) {
    name != "" && Letter(name[0]) &&
    forall i :: 1 <= i < |name| ==> Letter(name[i]) || '0' <= name[i] <= '9' || name[i] == '.'
  }

  function Word(style: Style, word: string): Token {
    Token(Identifier, style.spell(word))
  }

  // ----- The sentences -----

  function TypeWord(t: ColumnType): string
    requires !t.OtherType?
  {
    match t
    case IntType => "INT"
    case DoubleType => "DOUBLE"
    case StringType => "STRING"
  }

  /** NOT NULL is what a column is without saying so. */
  function ColumnSays(style: Style, c: Column): seq<Token>
    requires !c.ctype.OtherType?
  {
    [Keyword(c.name), Word(style, TypeWord(c.ctype))] +
    if c.nullable then [Word(style, "NULL")]
    else if style.notNull then [Word(style, "NOT"), Word(style, "NULL")]
    else []
  }

  function ColumnsSay(style: Style, columns: seq<Column>): seq<Token>
    requires forall i :: 0 <= i < |columns| ==> !columns[i].ctype.OtherType?
  {
    if columns == [] then []
    else if |columns| == 1 then ColumnSays(style, columns[0])
    else ColumnSays(style, columns[0]) + [COMMA] + ColumnsSay(style, columns[1..])
  }

  function ValueSays(style: Style, fp: FloatText, v: Value): Token {
    if v.Null? then Word(style, "NULL") else LiteralToken(fp, v)
  }

  function ValuesSay(style: Style, fp: FloatText, row: Row): seq<Token> {
    if row == [] then []
    else if |row| == 1 then [ValueSays(style, fp, row[0])]
    else [ValueSays(style, fp, row[0]), COMMA] + ValuesSay(style, fp, row[1..])
  }

  function TupleSays(style: Style, fp: FloatText, row: Row): seq<Token> {
    [OPEN] + ValuesSay(style, fp, row) + [CLOSE]
  }

  function TuplesSay(style: Style, fp: FloatText, rows: seq<Row>): seq<Token> {
    if rows == [] then []
    else if |rows| == 1 then TupleSays(style, fp, rows[0])
    else TupleSays(style, fp, rows[0]) + [COMMA] + TuplesSay(style, fp, rows[1..])
  }

  function NamesSay(names: seq<string>): seq<Token> {
    if names == [] then []
    else if |names| == 1 then [Keyword(names[0])]
    else [Keyword(names[0]), COMMA] + NamesSay(names[1..])
  }

  /** Conditions with every conjunction and disjunction bracketed. */
  function ConditionSays(style: Style, fp: FloatText, p: Predicate): seq<Token> {
    match p
    case Comparison(column, op, value) => [Keyword(column), OpToken(op), ValueSays(style, fp, value)]
    case And(l, r) =>
      [OPEN] + ConditionSays(style, fp, l) + [Word(style, "AND")] + ConditionSays(style, fp, r) + [CLOSE]
    case Or(l, r) =>
      [OPEN] + ConditionSays(style, fp, l) + [Word(style, "OR")] + ConditionSays(style, fp, r) + [CLOSE]
  }

  function WhereSays(style: Style, fp: FloatText, where: Option<Predicate>): seq<Token> {
    if where.None? then [] else [Word(style, "WHERE")] + ConditionSays(style, fp, where.value)
  }

  function JoinSays(style: Style, join: Option<JoinClause>): seq<Token> {
    if join.None? then []
    else
      [Word(style, "JOIN"), Keyword(join.value.table), Word(style, "ON"), Keyword(join.value.leftColumn),
       Token(Equal, "="), Keyword(join.value.rightColumn)]
  }

  /** Ascending is what an order is without saying so. */
  function OrderSays(style: Style, orderBy: Option<OrderBy>): seq<Token> {
    if orderBy.None? then []
    else
      [Word(style, "ORDER"), Word(style, "BY"), Keyword(orderBy.value.column)] +
      if !orderBy.value.ascending then [Word(style, "DESC")]
      else if style.asc then [Word(style, "ASC")]
      else []
  }

  function LimitSays(style: Style, limit: Option<nat>): seq<Token> {
    if limit.None? then [] else [Word(style, "LIMIT"), Token(Number, IntText(limit.value))]
  }

  function SelectedSays(selected: seq<string>): seq<Token> {
    if selected == ["*"] then [Token(Star, "*")] else NamesSay(selected)
  }

  function Sentence(style: Style, fp: FloatText, q: Command): seq<Token>
    requires q.CreateTable? ==> forall i :: 0 <= i < |q.columns| ==> !q.columns[i].ctype.OtherType?
  {
    match q
    case CreateDatabase(name) => [Word(style, "CREATE"), Word(style, "DATABASE"), Keyword(name)]
    case CreateTable(name, columns) =>
      [Word(style, "CREATE"), Word(style, "TABLE"), Keyword(name), OPEN] + ColumnsSay(style, columns) + [CLOSE]
    case DropTable(name) => [Word(style, "DROP"), Word(style, "TABLE"), Keyword(name)]
    case RenameTable(oldName, newName) =>
      [Word(style, "RENAME"), Word(style, "TABLE"), Keyword(oldName), Word(style, "TO"), Keyword(newName)]
    case ListTables => [Word(style, "LIST"), Word(style, "TABLES")]
    case Insert(table, rows) =>
      [Word(style, "INSERT"), Word(style, "INTO"), Keyword(table), Word(style, "VALUES")] + TuplesSay(style, fp, rows)
    case Select(table, join, selected, where, orderBy, limit) =>
      [Word(style, "SELECT")] + SelectedSays(selected) + [Word(style, "FROM"), Keyword(table)] + JoinSays(style, join)
      + WhereSays(style, fp, where) + OrderSays(style, orderBy) + LimitSays(style, limit)
    case Update(table, column, value, where) =>
      [Word(style, "UPDATE"), Keyword(table), Word(style, "SET"), Keyword(column), Token(Equal, "="),
       ValueSays(style, fp, value)] + WhereSays(style, fp, where)
    case Delete(table, where) =>
      [Word(style, "DELETE"), Word(style, "FROM"), Keyword(table)] + WhereSays(style, fp, where)
    case CreateIndex(name, table, column) =>
      [Word(style, "CREATE"), Word(style, "INDEX"), Keyword(name), Word(style, "ON"), Keyword(table), OPEN,
       Keyword(column), CLOSE]
    case SaveDatabase => [Word(style, "SAVE"), Word(style, "DATABASE")]
    case LoadDatabase(source) =>
      [Word(style, "LOAD"), Word(style, "DATABASE")] + if source.Some? then [Keyword(source.value)] else []
    case Begin => [Word(style, "BEGIN")]
    case Commit => [Word(style, "COMMIT")]
    case Rollback => [Word(style, "ROLLBACK")]
    case Prepare(name, sql) =>
      [Word(style, "PREPARE"), Keyword(name), Word(style, "AS"), Token(StringLiteral, sql)]
    case Execute(name, parameters) =>
      [Word(style, "EXECUTE"), Keyword(name)] +
      if parameters == [] then [] else [Word(style, "VALUES")] + TupleSays(style, fp, parameters)
    case Exit => [Word(style, "EXIT")]
  }

  // ----- What can be said -----

  predicate NamesIdentify(names: seq<string>) {
    forall i :: 0 <= i < |names| ==> Identifies(names[i])
  }

  predicate RowRereads(fp: FloatText, row: Row) {
    forall i :: 0 <= i < |row| ==> Rereads(fp, row[i])
  }

  predicate ConditionNames(p: Predicate) {
    match p
    case Comparison(column, _, _) => Identifies(column)
    case And(l, r) => ConditionNames(l) && ConditionNames(r)
    case Or(l, r) => ConditionNames(l) && ConditionNames(r)
  }

  predicate SayableWhere(fp: FloatText, where: Option<Predicate>) {
    where.Some? ==> ConditionNames(where.value) && PredicateRereads(fp, where.value)
  }

  predicate SayableSelect(fp: FloatText, q: Command)
    requires q.Select?
  {
    && Identifies(q.table)
    && (q.join.Some? ==>
          NamesIdentify([q.join.value.table, q.join.value.leftColumn, q.join.value.rightColumn]))
    && (q.selected == ["*"] || (q.selected != [] && NamesIdentify(q.selected)))
    && SayableWhere(fp, q.where)
    && (q.orderBy.Some? ==> Identifies(q.orderBy.value.column))
    && (q.limit.Some? ==> q.limit.value < TWO_63)
  }

  /** Names identify, lists the language does not allow empty are not, literals print as themselves. */
  predicate Sayable(fp: FloatText, q: Command) {
    match q
    case CreateDatabase(name) => Identifies(name)
    case CreateTable(name, columns) =>
      Identifies(name) && columns != [] &&
      forall i :: 0 <= i < |columns| ==> Identifies(columns[i].name) && !columns[i].ctype.OtherType?
    case DropTable(name) => Identifies(name)
    case RenameTable(oldName, newName) => Identifies(oldName) && Identifies(newName)
    case Insert(table, rows) =>
      Identifies(table) && rows != [] && forall i :: 0 <= i < |rows| ==> rows[i] != [] && RowRereads(fp, rows[i])
    case Select(_, _, _, _, _, _) => SayableSelect(fp, q)
    case Update(table, column, value, where) =>
      Identifies(table) && Identifies(column) && Rereads(fp, value) && SayableWhere(fp, where)
    case Delete(table, where) => Identifies(table) && SayableWhere(fp, where)
    case CreateIndex(name, table, column) => Identifies(name) && Identifies(table) && Identifies(column)
    case LoadDatabase(source) => source.Some? ==> Identifies(source.value)
    case Prepare(name, _) => Identifies(name)
    case Execute(name, parameters) => Identifies(name) && RowRereads(fp, parameters)
    case _ => true
  }

  /** A statement ends here, as far as its own words go. */
  predicate Ends(ts: seq<Token>) {
    ts != [] && (ts[0].kind == Semicolon || ts[0].kind == End)
  }

  // ----- Keywords -----

  /** A keyword spelled in any case matches itself and no other. */
  lemma WordIs(style: Style, word: string, other: string)
    requires Proper(style) && Capitals(word) && Capitals(other)
    ensures EqualsIgnoreCase(style.spell(word), other) <==> word == other
  {
    var spelled := style.spell(word);
    assert CaseOf(spelled, word);
    assert forall i :: 0 <= i < |word| ==> Upper(spelled[i]) == word[i];
    assert forall i :: 0 <= i < |other| ==> Upper(other[i]) == other[i];
  }

  lemma WordAt(style: Style, word: string, other: string, rest: seq<Token>)
    requires Proper(style) && Capitals(word) && Capitals(other)
    ensures var ts := [Word(style, word)] + rest;
      && Match(ts, Identifier, other) == Ok(if word == other then (true, rest) else (false, ts))
      && (word == other ==> Expect(ts, Identifier, other) == Ok(rest))
      && (At(ts, Identifier, other) <==> word == other)
  {
    hide EqualsIgnoreCase, Clean;
    WordIs(style, word, other);
    assert ([Word(style, word)] + rest)[1..] == rest;
  }

  /** No word stands at the front. */
  predicate NoWord(ts: seq<Token>) {
    ts != [] && ts[0].kind != Identifier
  }

  /** None of the words stands at the front. */
  predicate Avoids(ts: seq<Token>, words: seq<string>) {
    ts != [] && forall i :: 0 <= i < |words| ==> Match(ts, Identifier, words[i]) == Ok((false, ts))
  }

  lemma NoWordAvoids(ts: seq<Token>, words: seq<string>)
    requires NoWord(ts)
    ensures Avoids(ts, words)
  {
    hide EqualsIgnoreCase, Clean;
  }
}
