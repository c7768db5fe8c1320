/**
 The grammar of src/parser/parser.cpp: what each parsing routine reads from the tokens not yet consumed.
 Every successful routine leaves a proper suffix of its input, which is the parser's termination measure.
 */
module Grammar {
  import opened Results
  import opened Values
  import opened Ast
  import opened Lexer
  import opened SqlText

  /** A parsed piece and the tokens after it. */
  type Parsed<T> = Result<(T, seq<Token>)>

  /** What the tokenizer emits: `End` is the last token and only that, and identifiers are names. */
  predicate Clean(ts: seq<Token>) {
    && ts != []
    && (forall i :: 0 <= i < |ts| ==> (ts[i].kind == End <==> i == |ts| - 1))
    && (forall i :: 0 <= i < |ts| && ts[i].kind == Identifier ==> IsName(ts[i].lexeme))
  }

  function Upper(c: char): char {
    if 'a' <= c <= 'z' then (c as int - 32) as char else c
  }

  predicate EqualsIgnoreCase(a: string, b: string) {
    |a| == |b| && forall i :: 0 <= i < |a| ==> Upper(a[i]) == Upper(b[i])
  }

  function Uppercase(s: string): (r: string)
    ensures |r| == |s| && forall i :: 0 <= i < |s| ==> r[i] == Upper(s[i])
  {
    seq(|s|, i requires 0 <= i < |s| => Upper(s[i]))
  }

  function ColumnTypeFromText(text: string): (t: Option<ColumnType>)
    ensures t.Some? ==> !t.value.OtherType?
  {
    var normalized := Uppercase(text);
    if normalized == "INT" then Some(IntType)
    else if normalized == "DOUBLE" then Some(DoubleType)
    else if normalized == "STRING" then Some(StringType)
    else None
  }

  function DigitsValue(s: string): nat
    requires forall i :: 0 <= i < |s| ==> IsDigit(s[i])
  {
    if s == [] then 0 else
      assert IsDigit(s[|s| - 1]);
      DigitsValue(s[..|s| - 1]) * 10 + (s[|s| - 1] as int - '0' as int)
  }

  /** `std::from_chars` over the whole text, into a 64-bit integer. */
  function ParseInt(text: string): Result<Int64> {
    var negative := text != [] && text[0] == '-';
    var body := if negative then text[1..] else text;
    if body == [] || exists i :: 0 <= i < |body| && !IsDigit(body[i]) then Err
    else
      var magnitude: int := DigitsValue(body);
      var v := if negative then -magnitude else magnitude;
      if -TWO_63 <= v < TWO_63 then Ok(v) else Err
  }

  // ----- Names in statements -----

  predicate NamedPredicate(p: Predicate) {
    match p
    case Comparison(column, _, _) => IsName(column)
    case And(l, r) => NamedPredicate(l) && NamedPredicate(r)
    case Or(l, r) => NamedPredicate(l) && NamedPredicate(r)
  }

  predicate NamedWhere(where: Option<Predicate>) {
    where.Some? ==> NamedPredicate(where.value)
  }

  predicate NamedColumns(columns: seq<Column>) {
    forall i :: 0 <= i < |columns| ==> IsName(columns[i].name) && !columns[i].ctype.OtherType?
  }

  /**
   Every name in the statement is an identifier, every column type is one of the three, and no list the grammar requires
   is empty.
   */
  predicate NamedCommand(q: Command) {
    match q
    case CreateDatabase(name) => IsName(name)
    case CreateTable(name, columns) => IsName(name) && columns != [] && NamedColumns(columns)
    case DropTable(name) => IsName(name)
    case RenameTable(oldName, newName) => IsName(oldName) && IsName(newName)
    case Insert(table, rows) => IsName(table) && rows != [] && forall i :: 0 <= i < |rows| ==> rows[i] != []
    case Update(table, column, _, where) => IsName(table) && IsName(column) && NamedWhere(where)
    case Delete(table, where) => IsName(table) && NamedWhere(where)
    case CreateIndex(name, table, column) => IsName(name) && IsName(table) && IsName(column)
    case _ => true
  }

  // ----- The cursor -----

  predicate At(ts: seq<Token>, kind: TokenKind, lexeme: string)
    requires ts != []
  {
    ts[0].kind == kind && (lexeme == "" || EqualsIgnoreCase(ts[0].lexeme, lexeme))
  }

  /** Whether the next token matches, and the tokens after it if it does. */
  function Match(ts: seq<Token>, kind: TokenKind, lexeme: string): (r: Parsed<bool>)
    ensures r.Ok? ==> ts != [] && r.value.1 == (if r.value.0 then ts[1..] else ts)
    ensures r.Ok? <==> ts != []
    ensures r.Ok? && Clean(ts) && kind != End ==> Clean(r.value.1)
  {
    if ts == [] then Err
    else if At(ts, kind, lexeme) then Ok((true, ts[1..]))
    else Ok((false, ts))
  }

  function Expect(ts: seq<Token>, kind: TokenKind, lexeme: string): (r: Result<seq<Token>>)
    ensures r.Ok? ==> ts != [] && r.value == ts[1..]
    ensures r.Ok? && Clean(ts) && kind != End ==> Clean(r.value)
  {
    var m :- Match(ts, kind, lexeme);
    if m.0 then Ok(m.1) else Err
  }

  /** An `advance` whose token must be an identifier. */
  function Name(ts: seq<Token>): (r: Parsed<string>)
    ensures r.Ok? ==> ts != [] && ts[0] == Token(Identifier, r.value.0) && r.value.1 == ts[1..]
    ensures r.Ok? && Clean(ts) ==> Clean(r.value.1) && IsName(r.value.0)
  {
    if ts == [] || ts[0].kind != Identifier then Err else Ok((ts[0].lexeme, ts[1..]))
  }

  function ParseValue(fp: FloatText, ts: seq<Token>): (r: Parsed<Value>)
    ensures r.Ok? ==> ts != [] && r.value.1 == ts[1..]
    ensures r.Ok? && Clean(ts) ==> Clean(r.value.1)
  {
    if ts == [] then Err
    else if ts[0].kind == Identifier && EqualsIgnoreCase(ts[0].lexeme, "NULL") then Ok((Null, ts[1..]))
    else if ts[0].kind == StringLiteral then Ok((Str(ts[0].lexeme), ts[1..]))
    else if ts[0].kind == Number then
      if '.' in ts[0].lexeme then
        var read := fp.read(ts[0].lexeme);
        if read.Some? then Ok((Dbl(read.value), ts[1..])) else Err
      else
        var i :- ParseInt(ts[0].lexeme);
        Ok((Int(i), ts[1..]))
    else Err
  }

  // ----- Predicates -----

  function ParseComparison(fp: FloatText, ts: seq<Token>): (r: Parsed<Predicate>)
    ensures r.Ok? ==> |r.value.1| < |ts| && (Clean(ts) ==> Clean(r.value.1))
    ensures r.Ok? && Clean(ts) ==> NamedPredicate(r.value.0)
  {
    var column :- Name(ts);
    var rest := column.1;
    if rest == [] then Err
    else if rest[0].kind != Equal && rest[0].kind != Greater && rest[0].kind != Less then Err
    else
      var op := if rest[0].kind == Equal then EqualTo else if rest[0].kind == Greater then GreaterThan else LessThan;
      var value :- ParseValue(fp, rest[1..]);
      Ok((Comparison(column.0, op, value.0), value.1))
  }

  function ParsePrimary(fp: FloatText, ts: seq<Token>): (r: Parsed<Predicate>)
    ensures r.Ok? ==> |r.value.1| < |ts| && (Clean(ts) ==> Clean(r.value.1))
    ensures r.Ok? && Clean(ts) ==> NamedPredicate(r.value.0)
    decreases |ts|, 0
  {
    var open :- Match(ts, LeftParen, "");
    if open.0 then
      var inner :- ParseOr(fp, open.1);
      var rest :- Expect(inner.1, RightParen, "");
      Ok((inner.0, rest))
    else ParseComparison(fp, ts)
  }

  function ParseAnd(fp: FloatText, ts: seq<Token>): (r: Parsed<Predicate>)
    ensures r.Ok? ==> |r.value.1| < |ts| && (Clean(ts) ==> Clean(r.value.1))
    ensures r.Ok? && Clean(ts) ==> NamedPredicate(r.value.0)
    decreases |ts|, 1
  {
    var first :- ParsePrimary(fp, ts);
    AndTail(fp, first.0, first.1)
  }

  /** The `while (match("AND"))` loop with `left` parsed so far. */
  function AndTail(fp: FloatText, left: Predicate, ts: seq<Token>): (r: Parsed<Predicate>)
    ensures r.Ok? ==> |r.value.1| <= |ts| && (Clean(ts) ==> Clean(r.value.1))
    ensures r.Ok? && Clean(ts) ==> (NamedPredicate(left) ==> NamedPredicate(r.value.0))
    decreases |ts|, 1
  {
    var more :- Match(ts, Identifier, "AND");
    if !more.0 then Ok((left, ts))
    else
      var right :- ParsePrimary(fp, more.1);
      AndTail(fp, And(left, right.0), right.1)
  }

  function ParseOr(fp: FloatText, ts: seq<Token>): (r: Parsed<Predicate>)
    ensures r.Ok? ==> |r.value.1| < |ts| && (Clean(ts) ==> Clean(r.value.1))
    ensures r.Ok? && Clean(ts) ==> NamedPredicate(r.value.0)
    decreases |ts|, 2
  {
    var first :- ParseAnd(fp, ts);
    OrTail(fp, first.0, first.1)
  }

  function OrTail(fp: FloatText, left: Predicate, ts: seq<Token>): (r: Parsed<Predicate>)
    ensures r.Ok? ==> |r.value.1| <= |ts| && (Clean(ts) ==> Clean(r.value.1))
    ensures r.Ok? && Clean(ts) ==> (NamedPredicate(left) ==> NamedPredicate(r.value.0))
    decreases |ts|, 2
  {
    var more :- Match(ts, Identifier, "OR");
    if !more.0 then Ok((left, ts))
    else
      var right :- ParseAnd(fp, more.1);
      OrTail(fp, Or(left, right.0), right.1)
  }

  function ParseWhere(fp: FloatText, ts: seq<Token>): (r: Parsed<Option<Predicate>>)
    ensures r.Ok? ==> |r.value.1| <= |ts| && (Clean(ts) ==> Clean(r.value.1))
    ensures r.Ok? && Clean(ts) ==> NamedWhere(r.value.0)
  {
    var where :- Match(ts, Identifier, "WHERE");
    if !where.0 then Ok((None, ts))
    else
      var p :- ParseOr(fp, where.1);
      Ok((Some(p.0), p.1))
  }

  // ----- Lists -----

  function ParseColumn(ts: seq<Token>): (r: Parsed<Column>)
    ensures r.Ok? ==> |r.value.1| < |ts| && (Clean(ts) ==> Clean(r.value.1))
    ensures r.Ok? && Clean(ts) ==> IsName(r.value.0.name) && !r.value.0.ctype.OtherType?
  {
    var name :- Name(ts);
    var typeName :- Name(name.1);
    var ctype := ColumnTypeFromText(typeName.0);
    if ctype.None? then Err
    else
      var not :- Match(typeName.1, Identifier, "NOT");
      if not.0 then
        var rest :- Expect(not.1, Identifier, "NULL");
        Ok((Column(name.0, ctype.value, false), rest))
      else
        var nullable := Match(typeName.1, Identifier, "NULL").value;
        Ok((Column(name.0, ctype.value, nullable.0), nullable.1))
  }

  function ParseColumns(ts: seq<Token>): (r: Parsed<seq<Column>>)
    ensures r.Ok? ==> |r.value.1| < |ts| && (Clean(ts) ==> Clean(r.value.1))
    ensures r.Ok? && Clean(ts) ==> r.value.0 != [] && NamedColumns(r.value.0)
    decreases |ts|
  {
    var column :- ParseColumn(ts);
    var more :- Match(column.1, Comma, "");
    if !more.0 then Ok(([column.0], more.1))
    else
      var rest :- ParseColumns(more.1);
      Ok(([column.0] + rest.0, rest.1))
  }

  function ParseValues(fp: FloatText, ts: seq<Token>): (r: Parsed<Row>)
    ensures r.Ok? ==> |r.value.1| < |ts| && (Clean(ts) ==> Clean(r.value.1))
    ensures r.Ok? && Clean(ts) ==> r.value.0 != []
    decreases |ts|
  {
    var value :- ParseValue(fp, ts);
    var more :- Match(value.1, Comma, "");
    if !more.0 then Ok(([value.0], more.1))
    else
      var rest :- ParseValues(fp, more.1);
      Ok(([value.0] + rest.0, rest.1))
  }

  function ParseTuple(fp: FloatText, ts: seq<Token>): (r: Parsed<Row>)
    ensures r.Ok? ==> |r.value.1| < |ts| && (Clean(ts) ==> Clean(r.value.1))
    ensures r.Ok? && Clean(ts) ==> r.value.0 != []
  {
    var open :- Expect(ts, LeftParen, "");
    var values :- ParseValues(fp, open);
    var rest :- Expect(values.1, RightParen, "");
    Ok((values.0, rest))
  }

  function ParseTuples(fp: FloatText, ts: seq<Token>): (r: Parsed<seq<Row>>)
    ensures r.Ok? ==> |r.value.1| < |ts| && (Clean(ts) ==> Clean(r.value.1))
    ensures r.Ok? && Clean(ts) ==> r.value.0 != [] && forall i :: 0 <= i < |r.value.0| ==> r.value.0[i] != []
    decreases |ts|
  {
    var row :- ParseTuple(fp, ts);
    var more :- Match(row.1, Comma, "");
    if !more.0 then Ok(([row.0], more.1))
    else
      var rest :- ParseTuples(fp, more.1);
      Ok(([row.0] + rest.0, rest.1))
  }

  function ParseNames(ts: seq<Token>): (r: Parsed<seq<string>>)
    ensures r.Ok? ==> |r.value.1| < |ts| && (Clean(ts) ==> Clean(r.value.1))
    decreases |ts|
  {
    var name :- Name(ts);
    var more :- Match(name.1, Comma, "");
    if !more.0 then Ok(([name.0], more.1))
    else
      var rest :- ParseNames(more.1);
      Ok(([name.0] + rest.0, rest.1))
  }

  // ----- Statements -----

  function ParseCreateTable(ts: seq<Token>): (r: Parsed<Command>)
    ensures r.Ok? ==> |r.value.1| < |ts| && (Clean(ts) ==> Clean(r.value.1))
    ensures r.Ok? && Clean(ts) ==> NamedCommand(r.value.0)
  {
    var table :- Name(ts);
    var open :- Expect(table.1, LeftParen, "");
    var columns :- ParseColumns(open);
    var rest :- Expect(columns.1, RightParen, "");
    Ok((CreateTable(table.0, columns.0), rest))
  }

  function ParseCreateIndex(ts: seq<Token>): (r: Parsed<Command>)
    ensures r.Ok? ==> |r.value.1| < |ts| && (Clean(ts) ==> Clean(r.value.1))
    ensures r.Ok? && Clean(ts) ==> NamedCommand(r.value.0)
  {
    var index :- Name(ts);
    var on :- Expect(index.1, Identifier, "ON");
    var table :- Name(on);
    var open :- Expect(table.1, LeftParen, "");
    var column :- Name(open);
    var rest :- Expect(column.1, RightParen, "");
    Ok((CreateIndex(index.0, table.0, column.0), rest))
  }

  function ParseCreate(ts: seq<Token>): (r: Parsed<Command>)
    ensures r.Ok? ==> |r.value.1| < |ts| && (Clean(ts) ==> Clean(r.value.1))
    ensures r.Ok? && Clean(ts) ==> NamedCommand(r.value.0)
  {
    if ts == [] then Err
    else if At(ts, Identifier, "DATABASE") then
      var name :- Name(ts[1..]);
      Ok((CreateDatabase(name.0), name.1))
    else if At(ts, Identifier, "TABLE") then ParseCreateTable(ts[1..])
    else if At(ts, Identifier, "INDEX") then ParseCreateIndex(ts[1..])
    else Err
  }

  function ParseDropTable(ts: seq<Token>): (r: Parsed<Command>)
    ensures r.Ok? ==> |r.value.1| < |ts| && (Clean(ts) ==> Clean(r.value.1))
    ensures r.Ok? && Clean(ts) ==> NamedCommand(r.value.0)
  {
    var rest :- Expect(ts, Identifier, "TABLE");
    var table :- Name(rest);
    Ok((DropTable(table.0), table.1))
  }

  function ParseRenameTable(ts: seq<Token>): (r: Parsed<Command>)
    ensures r.Ok? ==> |r.value.1| < |ts| && (Clean(ts) ==> Clean(r.value.1))
    ensures r.Ok? && Clean(ts) ==> NamedCommand(r.value.0)
  {
    var rest :- Expect(ts, Identifier, "TABLE");
    var oldName :- Name(rest);
    var to :- Expect(oldName.1, Identifier, "TO");
    var newName :- Name(to);
    Ok((RenameTable(oldName.0, newName.0), newName.1))
  }

  function ParseInsert(fp: FloatText, ts: seq<Token>): (r: Parsed<Command>)
    ensures r.Ok? ==> |r.value.1| < |ts| && (Clean(ts) ==> Clean(r.value.1))
    ensures r.Ok? && Clean(ts) ==> NamedCommand(r.value.0)
  {
    var into :- Expect(ts, Identifier, "INTO");
    var table :- Name(into);
    var values :- Expect(table.1, Identifier, "VALUES");
    var rows :- ParseTuples(fp, values);
    Ok((Insert(table.0, rows.0), rows.1))
  }

  function ParseSelected(ts: seq<Token>): (r: Parsed<seq<string>>)
    ensures r.Ok? ==> |r.value.1| < |ts| && (Clean(ts) ==> Clean(r.value.1))
  {
    var star :- Match(ts, Star, "");
    if star.0 then Ok((["*"], star.1)) else ParseNames(ts)
  }

  function ParseJoin(ts: seq<Token>): (r: Parsed<Option<JoinClause>>)
    ensures r.Ok? ==> |r.value.1| <= |ts| && (Clean(ts) ==> Clean(r.value.1))
  {
    var join :- Match(ts, Identifier, "JOIN");
    if !join.0 then Ok((None, ts))
    else
      var table :- Name(join.1);
      var on :- Expect(table.1, Identifier, "ON");
      var left :- Name(on);
      var eq :- Expect(left.1, Equal, "");
      var right :- Name(eq);
      Ok((Some(JoinClause(table.0, left.0, right.0)), right.1))
  }

  function ParseOrderBy(ts: seq<Token>): (r: Parsed<Option<OrderBy>>)
    ensures r.Ok? ==> |r.value.1| <= |ts| && (Clean(ts) ==> Clean(r.value.1))
  {
    var order :- Match(ts, Identifier, "ORDER");
    if !order.0 then Ok((None, ts))
    else
      var afterBy :- Expect(order.1, Identifier, "BY");
      var column :- Name(afterBy);
      var desc :- Match(column.1, Identifier, "DESC");
      if desc.0 then Ok((Some(OrderBy(column.0, false)), desc.1))
      else
        var asc := Match(column.1, Identifier, "ASC").value;
        Ok((Some(OrderBy(column.0, true)), asc.1))
  }

  /** A negative limit is cast to an unsigned 64-bit count. */
  function ParseLimit(ts: seq<Token>): (r: Parsed<Option<nat>>)
    ensures r.Ok? ==> |r.value.1| <= |ts| && (Clean(ts) ==> Clean(r.value.1))
  {
    var limit :- Match(ts, Identifier, "LIMIT");
    if !limit.0 then Ok((None, ts))
    else if limit.1 == [] || limit.1[0].kind != Number then Err
    else
      var count :- ParseInt(limit.1[0].lexeme);
      Ok((Some(count % TWO_64), limit.1[1..]))
  }

  function ParseSelect(fp: FloatText, ts: seq<Token>): (r: Parsed<Command>)
    ensures r.Ok? ==> |r.value.1| < |ts| && (Clean(ts) ==> Clean(r.value.1))
    ensures r.Ok? && Clean(ts) ==> NamedCommand(r.value.0)
  {
    var columns :- ParseSelected(ts);
    var from :- Expect(columns.1, Identifier, "FROM");
    var table :- Name(from);
    var join :- ParseJoin(table.1);
    var where :- ParseWhere(fp, join.1);
    var orderBy :- ParseOrderBy(where.1);
    var limit :- ParseLimit(orderBy.1);
    Ok((Select(table.0, join.0, columns.0, where.0, orderBy.0, limit.0), limit.1))
  }

  function ParseUpdate(fp: FloatText, ts: seq<Token>): (r: Parsed<Command>)
    ensures r.Ok? ==> |r.value.1| < |ts| && (Clean(ts) ==> Clean(r.value.1))
    ensures r.Ok? && Clean(ts) ==> NamedCommand(r.value.0)
  {
    var table :- Name(ts);
    var set_ :- Expect(table.1, Identifier, "SET");
    var column :- Name(set_);
    var eq :- Expect(column.1, Equal, "");
    var value :- ParseValue(fp, eq);
    var where :- ParseWhere(fp, value.1);
    Ok((Update(table.0, column.0, value.0, where.0), where.1))
  }

  function ParseDelete(fp: FloatText, ts: seq<Token>): (r: Parsed<Command>)
    ensures r.Ok? ==> |r.value.1| < |ts| && (Clean(ts) ==> Clean(r.value.1))
    ensures r.Ok? && Clean(ts) ==> NamedCommand(r.value.0)
  {
    var from :- Expect(ts, Identifier, "FROM");
    var table :- Name(from);
    var where :- ParseWhere(fp, table.1);
    Ok((Delete(table.0, where.0), where.1))
  }

  function ParseLoad(ts: seq<Token>): (r: Parsed<Command>)
    ensures r.Ok? ==> |r.value.1| < |ts| && (Clean(ts) ==> Clean(r.value.1))
    ensures r.Ok? && Clean(ts) ==> NamedCommand(r.value.0)
  {
    var rest :- Expect(ts, Identifier, "DATABASE");
    if rest == [] then Err
    else if rest[0].kind == Identifier then Ok((LoadDatabase(Some(rest[0].lexeme)), rest[1..]))
    else Ok((LoadDatabase(None), rest))
  }

  function ParsePrepare(ts: seq<Token>): (r: Parsed<Command>)
    ensures r.Ok? ==> |r.value.1| < |ts| && (Clean(ts) ==> Clean(r.value.1))
    ensures r.Ok? && Clean(ts) ==> NamedCommand(r.value.0)
  {
    var name :- Name(ts);
    var as_ :- Expect(name.1, Identifier, "AS");
    if as_ == [] || as_[0].kind != StringLiteral then Err
    else Ok((Prepare(name.0, as_[0].lexeme), as_[1..]))
  }

  function ParseExecute(fp: FloatText, ts: seq<Token>): (r: Parsed<Command>)
    ensures r.Ok? ==> |r.value.1| < |ts| && (Clean(ts) ==> Clean(r.value.1))
    ensures r.Ok? && Clean(ts) ==> NamedCommand(r.value.0)
  {
    var name :- Name(ts);
    var values :- Match(name.1, Identifier, "VALUES");
    if !values.0 then Ok((Execute(name.0, []), name.1))
    else
      var row :- ParseTuple(fp, values.1);
      Ok((Execute(name.0, row.0), row.1))
  }

  /** The statement keyword picks the routine; the order of the tests is the source's. */
  function ParseStatement(fp: FloatText, ts: seq<Token>): (r: Parsed<Command>)
    ensures r.Ok? ==> |r.value.1| < |ts| && (Clean(ts) ==> Clean(r.value.1))
    ensures r.Ok? && Clean(ts) ==> NamedCommand(r.value.0)
  {
    if ts == [] then Err
    else if At(ts, Identifier, "CREATE") then ParseCreate(ts[1..])
    else if At(ts, Identifier, "DROP") then ParseDropTable(ts[1..])
    else if At(ts, Identifier, "RENAME") then ParseRenameTable(ts[1..])
    else if At(ts, Identifier, "LIST") then
      var rest :- Expect(ts[1..], Identifier, "TABLES");
      Ok((ListTables, rest))
    else if At(ts, Identifier, "INSERT") then ParseInsert(fp, ts[1..])
    else if At(ts, Identifier, "SELECT") then ParseSelect(fp, ts[1..])
    else if At(ts, Identifier, "UPDATE") then ParseUpdate(fp, ts[1..])
    else if At(ts, Identifier, "DELETE") then ParseDelete(fp, ts[1..])
    else ParseControl(fp, ts)
  }

  /** The statements that move no data themselves. */
  function ParseControl(fp: FloatText, ts: seq<Token>): (r: Parsed<Command>)
    ensures r.Ok? ==> |r.value.1| < |ts| && (Clean(ts) ==> Clean(r.value.1))
    ensures r.Ok? && Clean(ts) ==> NamedCommand(r.value.0)
  {
    hide EqualsIgnoreCase, ParseLoad, ParsePrepare, ParseExecute, Clean;
    if ts == [] || ts[0].kind != Identifier then Err
    else
      var after := Tail(ts);
      if At(ts, Identifier, "SAVE") then
        var rest :- Expect(after, Identifier, "DATABASE");
        Ok((SaveDatabase, rest))
      else if At(ts, Identifier, "LOAD") then ParseLoad(after)
      else if At(ts, Identifier, "BEGIN") then Ok((Begin, after))
      else if At(ts, Identifier, "COMMIT") then Ok((Commit, after))
      else if At(ts, Identifier, "ROLLBACK") then Ok((Rollback, after))
      else if At(ts, Identifier, "PREPARE") then ParsePrepare(after)
      else if At(ts, Identifier, "EXECUTE") then ParseExecute(fp, after)
      else if At(ts, Identifier, "EXIT") then Ok((Exit, after))
      else Err
  }

  function Tail(ts: seq<Token>): (r: seq<Token>)
    requires ts != []
    ensures r == ts[1..]
    ensures Clean(ts) && ts[0].kind != End ==> Clean(r)
  {
    ts[1..]
  }

  /** An optional semicolon and then `End`. */
  function StatementEnd(ts: seq<Token>): Result<()> {
    var semicolon :- Match(ts, Semicolon, "");
    if semicolon.1 == [] || semicolon.1[0].kind != End then Err else Ok(())
  }

  function ParseTokens(fp: FloatText, ts: seq<Token>): Result<Command> {
    var statement :- ParseStatement(fp, ts);
    var _ :- StatementEnd(statement.1);
    Ok(statement.0)
  }

  function Parse(fp: FloatText, sql: string): Result<Command> {
    var ts :- Tokens(sql);
    ParseTokens(fp, ts)
  }
}
