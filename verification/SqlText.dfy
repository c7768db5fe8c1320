/**
 The SQL printers of src/execution/query_executor.cpp:36-142, which write the log's payloads.
 Formatting and reading a double are C++ library calls and enter as the parameter `FloatText`.
 */
module SqlText {
  import opened Results
  import opened Values
  import opened Ast
  import opened Lexer

  /** `ostream << double` and `std::stod`. */
  datatype FloatText = FloatText(format: Word64 -> string, read: string -> Option<Word64>)

  function DigitChar(d: nat): char
    requires d < 10
  {
    ('0' as int + d) as char
  }

  function Digits(n: nat): (s: string)
    ensures s != [] && forall i :: 0 <= i < |s| ==> IsDigit(s[i])
  {
    if n < 10 then [DigitChar(n)] else Digits(n / 10) + [DigitChar(n % 10)]
  }

  /** `ostream << int64_t`. */
  function IntText(i: int): string {
    if i < 0 then "-" + Digits(-i) else Digits(i)
  }

  function Escape(s: string): string {
    if s == [] then ""
    else (if s[0] == '"' || s[0] == '\\' then ['\\', s[0]] else [s[0]]) + Escape(s[1..])
  }

  function SqlLiteral(fp: FloatText, v: Value): string {
    match v
    case Null => "NULL"
    case Int(i) => IntText(i)
    case Dbl(bits) => fp.format(bits)
    case Str(s) => "\"" + Escape(s) + "\""
  }

  function OpText(op: CompareOp): string {
    match op
    case EqualTo => "="
    case GreaterThan => ">"
    case LessThan => "<"
  }

  function TypeText(t: ColumnType): string {
    match t
    case IntType => "INT"
    case DoubleType => "DOUBLE"
    case StringType => "STRING"
    case OtherType(_) => "UNKNOWN"
  }

  function PredicateText(fp: FloatText, p: Predicate): string {
    match p
    case And(l, r) => "(" + PredicateText(fp, l) + " AND " + PredicateText(fp, r) + ")"
    case Or(l, r) => "(" + PredicateText(fp, l) + " OR " + PredicateText(fp, r) + ")"
    case Comparison(column, op, value) => column + " " + OpText(op) + " " + SqlLiteral(fp, value)
  }

  function CommaList(parts: seq<string>): string {
    if parts == [] then ""
    else if |parts| == 1 then parts[0]
    else parts[0] + ", " + CommaList(parts[1..])
  }

  function ColumnText(c: Column): string {
    c.name + " " + TypeText(c.ctype) + (if c.nullable then " NULL" else "")
  }

  function ColumnTexts(columns: seq<Column>): (r: seq<string>)
    ensures |r| == |columns|
    ensures forall i :: 0 <= i < |r| ==> r[i] == ColumnText(columns[i])
  {
    seq(|columns|, i requires 0 <= i < |columns| => ColumnText(columns[i]))
  }

  function Literals(fp: FloatText, row: Row): (r: seq<string>)
    ensures |r| == |row|
    ensures forall i :: 0 <= i < |r| ==> r[i] == SqlLiteral(fp, row[i])
  {
    seq(|row|, i requires 0 <= i < |row| => SqlLiteral(fp, row[i]))
  }

  function CreateTableSql(name: string, columns: seq<Column>): string {
    "CREATE TABLE " + name + " (" + CommaList(ColumnTexts(columns)) + ");"
  }

  function InsertSql(fp: FloatText, table: string, row: Row): string {
    "INSERT INTO " + table + " VALUES (" + CommaList(Literals(fp, row)) + ");"
  }

  function WhereText(fp: FloatText, where: Option<Predicate>): string {
    if where.Some? then " WHERE " + PredicateText(fp, where.value) else ""
  }

  function UpdateSql(fp: FloatText, table: string, column: string, value: Value, where: Option<Predicate>): string {
    "UPDATE " + table + " SET " + column + " = " + SqlLiteral(fp, value) + WhereText(fp, where) + ";"
  }

  function DeleteSql(fp: FloatText, table: string, where: Option<Predicate>): string {
    "DELETE FROM " + table + WhereText(fp, where) + ";"
  }

  function CreateIndexSql(name: string, table: string, column: string): string {
    "CREATE INDEX " + name + " ON " + table + "(" + column + ");"
  }

  function DropTableSql(name: string): string {
    "DROP TABLE " + name + ";"
  }

  function RenameTableSql(oldName: string, newName: string): string {
    "RENAME TABLE " + oldName + " TO " + newName + ";"
  }

  // ----- The printing loops -----

  method EscapeLoop(s: string) returns (escaped: string)
    ensures escaped == Escape(s)
  {
    escaped := "";
    var i := 0;
    while i < |s|
      invariant 0 <= i <= |s|
      invariant escaped + Escape(s[i..]) == Escape(s)
    {
      ghost var before := escaped;
      if s[i] == '"' || s[i] == '\\' {
        escaped := escaped + ['\\'];
      }
      escaped := escaped + [s[i]];
      EscapeStep(s, i, before, escaped);
      i := i + 1;
    }
  }

  lemma EscapeStep(s: string, i: nat, before: string, after: string)
    requires i < |s|
    requires after == if s[i] == '"' || s[i] == '\\' then before + ['\\'] + [s[i]] else before + [s[i]]
    ensures after + Escape(s[i + 1..]) == before + Escape(s[i..])
  {
    var head := if s[i] == '"' || s[i] == '\\' then ['\\', s[i]] else [s[i]];
    assert s[i..][1..] == s[i + 1..];
    assert Escape(s[i..]) == head + Escape(s[i + 1..]);
    assert after == before + head;
  }

  /** The comma-separating loop shared by createTableSql and insertSql. */
  method CommaLoop(parts: seq<string>) returns (sql: string)
    ensures sql == CommaList(parts)
  {
    sql := "";
    for i := 0 to |parts|
      invariant sql == CommaList(parts[..i])
    {
      if i != 0 {
        sql := sql + ", ";
      }
      CommaListExtend(parts[..i], parts[i]);
      assert parts[..i + 1] == parts[..i] + [parts[i]];
      sql := sql + parts[i];
    }
    assert parts[..|parts|] == parts;
  }

  lemma {:induction false} CommaListExtend(parts: seq<string>, last: string)
    ensures CommaList(parts + [last]) == if parts == [] then last else CommaList(parts) + ", " + last
  {
    if |parts| > 1 {
      assert (parts + [last])[1..] == parts[1..] + [last];
      CommaListExtend(parts[1..], last);
    } else if |parts| == 1 {
      assert (parts + [last])[1..] == [last];
    }
  }

  method PrintLiteral(fp: FloatText, v: Value) returns (text: string)
    ensures text == SqlLiteral(fp, v)
  {
    match v
    case Null => text := "NULL";
    case Int(i) => text := IntText(i);
    case Dbl(bits) => text := fp.format(bits);
    case Str(s) =>
      var escaped := EscapeLoop(s);
      text := "\"" + escaped + "\"";
  }

  /** `predicateLiteral`: fully bracketed. */
  method PrintPredicate(fp: FloatText, p: Predicate) returns (text: string)
    ensures text == PredicateText(fp, p)
  {
    if p.Comparison? {
      var value := PrintLiteral(fp, p.value);
      text := p.column + " " + OpText(p.op) + " " + value;
    } else {
      var l := PrintPredicate(fp, p.left);
      var r := PrintPredicate(fp, p.right);
      text := "(" + l + (if p.And? then " AND " else " OR ") + r + ")";
    }
  }

  method PrintWhere(fp: FloatText, where: Option<Predicate>) returns (text: string)
    ensures text == WhereText(fp, where)
  {
    text := "";
    if where.Some? {
      var p := PrintPredicate(fp, where.value);
      text := " WHERE " + p;
    }
  }

  method PrintCreateTable(name: string, columns: seq<Column>) returns (sql: string)
    ensures sql == CreateTableSql(name, columns)
  {
    var list := CommaLoop(ColumnTexts(columns));
    sql := "CREATE TABLE " + name + " (" + list + ");";
  }

  method PrintInsert(fp: FloatText, table: string, row: Row) returns (sql: string)
    ensures sql == InsertSql(fp, table, row)
  {
    var parts: seq<string> := [];
    for i := 0 to |row|
      invariant |parts| == i && forall j :: 0 <= j < i ==> parts[j] == SqlLiteral(fp, row[j])
    {
      var text := PrintLiteral(fp, row[i]);
      parts := parts + [text];
    }
    assert parts == Literals(fp, row);
    var list := CommaLoop(parts);
    sql := "INSERT INTO " + table + " VALUES (" + list + ");";
  }

  method PrintUpdate(fp: FloatText, table: string, column: string, value: Value, where: Option<Predicate>)
      returns (sql: string)
    ensures sql == UpdateSql(fp, table, column, value, where)
  {
    var literal := PrintLiteral(fp, value);
    var clause := PrintWhere(fp, where);
    sql := "UPDATE " + table + " SET " + column + " = " + literal + clause + ";";
  }

  method PrintDelete(fp: FloatText, table: string, where: Option<Predicate>) returns (sql: string)
    ensures sql == DeleteSql(fp, table, where)
  {
    var clause := PrintWhere(fp, where);
    sql := "DELETE FROM " + table + clause + ";";
  }
}
