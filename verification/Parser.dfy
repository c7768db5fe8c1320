/**
 src/parser/parser.cpp: the recursive-descent parser over a token cursor. Each method reads exactly what the
 grammar's function of the same name says; `Valid` holds throughout, so the cursor never passes the final `End`.
 */
module Parsing {
  import opened Results
  import opened Values
  import opened Ast
  import opened Lexer
  import opened SqlText
  import opened Grammar

  /** A method's outcome and the tokens it left are what the grammar says. */
  ghost predicate Agrees<T>(r: Result<T>, rest: seq<Token>, spec: Parsed<T>) {
    && (r.Ok? <==> spec.Ok?)
    && (r.Ok? ==> spec.value == (r.value, rest))
  }

  class Parser {
    const fp: FloatText
    const tokens: seq<Token>
    var current: nat

    /** The stream ends in its only `End`, and the cursor is on some token: reading past the end cannot happen. */
    ghost predicate Valid()
      reads this
    {
      Clean(tokens) && current < |tokens|
    }

    ghost function Rest(): seq<Token>
      reads this
      requires Valid()
    {
      tokens[current..]
    }

    constructor (fp: FloatText, tokens: seq<Token>)
      requires Clean(tokens)
      ensures Valid() && this.fp == fp && this.tokens == tokens && Rest() == tokens
    {
      this.fp := fp;
      this.tokens := tokens;
      this.current := 0;
    }

    method Peek() returns (t: Token)
      requires Valid()
      ensures t == Rest()[0]
    {
      return tokens[current];
    }

    method Advance() returns (t: Token)
      requires Valid()
      modifies this
      ensures Valid() && t == old(Rest())[0]
      ensures Rest() == if t.kind == End then old(Rest()) else old(Rest())[1..]
    {
      t := tokens[current];
      if t.kind != End {
        current := current + 1;
      }
    }

    method MatchNext(kind: TokenKind, lexeme: string) returns (matched: bool)
      requires Valid() && kind != End
      modifies this
      ensures Valid() && Match(old(Rest()), kind, lexeme) == Ok((matched, Rest()))
    {
      var t := Peek();
      if t.kind != kind {
        return false;
      }
      if lexeme != "" && !EqualsIgnoreCase(t.lexeme, lexeme) {
        return false;
      }
      var _ := Advance();
      return true;
    }

    method ExpectNext(kind: TokenKind, lexeme: string) returns (r: Result<()>)
      requires Valid() && kind != End
      modifies this
      ensures Valid() && (r.Ok? <==> Expect(old(Rest()), kind, lexeme).Ok?)
      ensures r.Ok? ==> Expect(old(Rest()), kind, lexeme).value == Rest()
    {
      var matched := MatchNext(kind, lexeme);
      return if matched then Ok(()) else Err;
    }

    method NextName() returns (r: Result<string>)
      requires Valid()
      modifies this
      ensures Valid() && Agrees(r, Rest(), Name(old(Rest())))
    {
      var t := Advance();
      return if t.kind == Identifier then Ok(t.lexeme) else Err;
    }

    method NextValue() returns (r: Result<Value>)
      requires Valid()
      modifies this
      ensures Valid() && Agrees(r, Rest(), ParseValue(fp, old(Rest())))
    {
      var t := Advance();
      if t.kind == Identifier && EqualsIgnoreCase(t.lexeme, "NULL") {
        return Ok(Null);
      }
      if t.kind == StringLiteral {
        return Ok(Str(t.lexeme));
      }
      if t.kind == Number {
        if '.' in t.lexeme {
          var read := fp.read(t.lexeme);
          return if read.Some? then Ok(Dbl(read.value)) else Err;
        }
        var i := ParseInt(t.lexeme);
        return if i.Ok? then Ok(Int(i.value)) else Err;
      }
      return Err;
    }

    method Comparison() returns (r: Result<Predicate>)
      requires Valid()
      modifies this
      ensures Valid() && Agrees(r, Rest(), ParseComparison(fp, old(Rest())))
    {
      hide Clean, EqualsIgnoreCase, ParseValue, NamedCommand;
      var column :- NextName();
      var op: CompareOp;
      var equal := MatchNext(Equal, "");
      if equal {
        op := EqualTo;
      } else {
        var greater := MatchNext(Greater, "");
        if greater {
          op := GreaterThan;
        } else {
          var less := MatchNext(Less, "");
          if !less {
            return Err;
          }
          op := LessThan;
        }
      }
      var value :- NextValue();
      return Ok(Predicate.Comparison(column, op, value));
    }

    method Primary() returns (r: Result<Predicate>)
      requires Valid()
      modifies this
      ensures Valid() && Agrees(r, Rest(), ParsePrimary(fp, old(Rest())))
      decreases |tokens| - current, 0
    {
      var open := MatchNext(LeftParen, "");
      if open {
        var inner :- OrPredicate();
        var _ :- ExpectNext(RightParen, "");
        return Ok(inner);
      }
      r := Comparison();
    }

    method AndPredicate() returns (r: Result<Predicate>)
      requires Valid()
      modifies this
      ensures Valid() && Agrees(r, Rest(), ParseAnd(fp, old(Rest())))
      decreases |tokens| - current, 1
    {
      ghost var whole := ParseAnd(fp, Rest());
      var predicate_ :- Primary();
      var more := true;
      while more
        invariant Valid() && current > old(current)
        invariant more ==> whole == AndTail(fp, predicate_, Rest())
        invariant !more ==> whole == Ok((predicate_, Rest()))
        decreases more, |tokens| - current
      {
        more := MatchNext(Identifier, "AND");
        if more {
          var right :- Primary();
          predicate_ := And(predicate_, right);
        }
      }
      return Ok(predicate_);
    }

    method OrPredicate() returns (r: Result<Predicate>)
      requires Valid()
      modifies this
      ensures Valid() && Agrees(r, Rest(), ParseOr(fp, old(Rest())))
      decreases |tokens| - current, 2
    {
      ghost var whole := ParseOr(fp, Rest());
      var predicate_ :- AndPredicate();
      var more := true;
      while more
        invariant Valid() && current > old(current)
        invariant more ==> whole == OrTail(fp, predicate_, Rest())
        invariant !more ==> whole == Ok((predicate_, Rest()))
        decreases more, |tokens| - current
      {
        more := MatchNext(Identifier, "OR");
        if more {
          var right :- AndPredicate();
          predicate_ := Or(predicate_, right);
        }
      }
      return Ok(predicate_);
    }

    method Where() returns (r: Result<Option<Predicate>>)
      requires Valid()
      modifies this
      ensures Valid() && Agrees(r, Rest(), ParseWhere(fp, old(Rest())))
    {
      var where := MatchNext(Identifier, "WHERE");
      if where {
        var p :- OrPredicate();
        return Ok(Some(p));
      }
      return Ok(None);
    }

    method OneColumn() returns (r: Result<Column>)
      requires Valid()
      modifies this
      ensures Valid() && Agrees(r, Rest(), ParseColumn(old(Rest())))
    {
      var name :- NextName();
      var typeName :- NextName();
      var ctype := ColumnTypeFromText(typeName);
      if ctype.None? {
        return Err;
      }
      var nullable := false;
      var not := MatchNext(Identifier, "NOT");
      if not {
        var _ :- ExpectNext(Identifier, "NULL");
      } else {
        nullable := MatchNext(Identifier, "NULL");
      }
      return Ok(Column(name, ctype.value, nullable));
    }

    method CreateTableBody() returns (r: Result<Command>)
      requires Valid()
      modifies this
      ensures Valid() && Agrees(r, Rest(), ParseCreateTable(old(Rest())))
    {
      var table :- NextName();
      var _ :- ExpectNext(LeftParen, "");
      var columns: seq<Column> := [];
      ghost var list := ParseColumns(Rest());
      Prepending([], list);
      var more := true;
      while more
        invariant Valid()
        invariant more ==> list == Prepended(columns, ParseColumns(Rest()))
        invariant !more ==> list == Ok((columns, Rest()))
        decreases more, |tokens| - current
      {
        ghost var start := Rest();
        var column :- OneColumn();
        more := MatchNext(Comma, "");
        PrependStep(columns, column, if more then ParseColumns(Rest()) else Ok(([], Rest())));
        columns := columns + [column];
      }
      var _ :- ExpectNext(RightParen, "");
      return Ok(CreateTable(table, columns));
    }

    method Tuple() returns (r: Result<Row>)
      requires Valid()
      modifies this
      ensures Valid() && Agrees(r, Rest(), ParseTuple(fp, old(Rest())))
    {
      var _ :- ExpectNext(LeftParen, "");
      var values: Row := [];
      ghost var list := ParseValues(fp, Rest());
      Prepending([], list);
      var more := true;
      while more
        invariant Valid()
        invariant more ==> list == Prepended(values, ParseValues(fp, Rest()))
        invariant !more ==> list == Ok((values, Rest()))
        decreases more, |tokens| - current
      {
        var value :- NextValue();
        more := MatchNext(Comma, "");
        PrependStep(values, value, if more then ParseValues(fp, Rest()) else Ok(([], Rest())));
        values := values + [value];
      }
      var _ :- ExpectNext(RightParen, "");
      return Ok(values);
    }

    method InsertBody() returns (r: Result<Command>)
      requires Valid()
      modifies this
      ensures Valid() && Agrees(r, Rest(), ParseInsert(fp, old(Rest())))
    {
      var _ :- ExpectNext(Identifier, "INTO");
      var table :- NextName();
      var _ :- ExpectNext(Identifier, "VALUES");
      var rows: seq<Row> := [];
      ghost var list := ParseTuples(fp, Rest());
      Prepending([], list);
      var more := true;
      while more
        invariant Valid()
        invariant more ==> list == Prepended(rows, ParseTuples(fp, Rest()))
        invariant !more ==> list == Ok((rows, Rest()))
        decreases more, |tokens| - current
      {
        var row :- Tuple();
        more := MatchNext(Comma, "");
        PrependStep(rows, row, if more then ParseTuples(fp, Rest()) else Ok(([], Rest())));
        rows := rows + [row];
      }
      return Ok(Insert(table, rows));
    }

    method Selected() returns (r: Result<seq<string>>)
      requires Valid()
      modifies this
      ensures Valid() && Agrees(r, Rest(), ParseSelected(old(Rest())))
    {
      var star := MatchNext(Star, "");
      if star {
        return Ok(["*"]);
      }
      var columns: seq<string> := [];
      ghost var list := ParseNames(Rest());
      Prepending([], list);
      var more := true;
      while more
        invariant Valid()
        invariant more ==> list == Prepended(columns, ParseNames(Rest()))
        invariant !more ==> list == Ok((columns, Rest()))
        decreases more, |tokens| - current
      {
        var column :- NextName();
        more := MatchNext(Comma, "");
        PrependStep(columns, column, if more then ParseNames(Rest()) else Ok(([], Rest())));
        columns := columns + [column];
      }
      return Ok(columns);
    }

    method JoinPart() returns (r: Result<Option<JoinClause>>)
      requires Valid()
      modifies this
      ensures Valid() && Agrees(r, Rest(), ParseJoin(old(Rest())))
    {
      var join := MatchNext(Identifier, "JOIN");
      if !join {
        return Ok(None);
      }
      var table :- NextName();
      var _ :- ExpectNext(Identifier, "ON");
      var left :- NextName();
      var _ :- ExpectNext(Equal, "");
      var right :- NextName();
      return Ok(Some(JoinClause(table, left, right)));
    }

    method OrderPart() returns (r: Result<Option<OrderBy>>)
      requires Valid()
      modifies this
      ensures Valid() && Agrees(r, Rest(), ParseOrderBy(old(Rest())))
    {
      var order := MatchNext(Identifier, "ORDER");
      if !order {
        return Ok(None);
      }
      var _ :- ExpectNext(Identifier, "BY");
      var column :- NextName();
      var ascending := true;
      var desc := MatchNext(Identifier, "DESC");
      if desc {
        ascending := false;
      } else {
        var _ := MatchNext(Identifier, "ASC");
      }
      return Ok(Some(OrderBy(column, ascending)));
    }

    method LimitPart() returns (r: Result<Option<nat>>)
      requires Valid()
      modifies this
      ensures Valid() && Agrees(r, Rest(), ParseLimit(old(Rest())))
    {
      var limit := MatchNext(Identifier, "LIMIT");
      if !limit {
        return Ok(None);
      }
      var count := Advance();
      if count.kind != Number {
        return Err;
      }
      var n := ParseInt(count.lexeme);
      return if n.Ok? then Ok(Some(n.value % TWO_64)) else Err;
    }

    method SelectBody() returns (r: Result<Command>)
      requires Valid()
      modifies this
      ensures Valid() && Agrees(r, Rest(), ParseSelect(fp, old(Rest())))
    {
      var columns :- Selected();
      var _ :- ExpectNext(Identifier, "FROM");
      var table :- NextName();
      var join :- JoinPart();
      var where :- Where();
      var orderBy :- OrderPart();
      var limit :- LimitPart();
      return Ok(Select(table, join, columns, where, orderBy, limit));
    }

    method UpdateBody() returns (r: Result<Command>)
      requires Valid()
      modifies this
      ensures Valid() && Agrees(r, Rest(), ParseUpdate(fp, old(Rest())))
    {
      var table :- NextName();
      var _ :- ExpectNext(Identifier, "SET");
      var column :- NextName();
      var _ :- ExpectNext(Equal, "");
      var value :- NextValue();
      var where :- Where();
      return Ok(Update(table, column, value, where));
    }

    method DeleteBody() returns (r: Result<Command>)
      requires Valid()
      modifies this
      ensures Valid() && Agrees(r, Rest(), ParseDelete(fp, old(Rest())))
    {
      var _ :- ExpectNext(Identifier, "FROM");
      var table :- NextName();
      var where :- Where();
      return Ok(Delete(table, where));
    }

    method CreateIndexBody() returns (r: Result<Command>)
      requires Valid()
      modifies this
      ensures Valid() && Agrees(r, Rest(), ParseCreateIndex(old(Rest())))
    {
      var index :- NextName();
      var _ :- ExpectNext(Identifier, "ON");
      var table :- NextName();
      var _ :- ExpectNext(LeftParen, "");
      var column :- NextName();
      var _ :- ExpectNext(RightParen, "");
      return Ok(CreateIndex(index, table, column));
    }

    method CreateBody() returns (r: Result<Command>)
      requires Valid()
      modifies this
      ensures Valid() && Agrees(r, Rest(), ParseCreate(old(Rest())))
    {
      var database := MatchNext(Identifier, "DATABASE");
      if database {
        var name :- NextName();
        return Ok(CreateDatabase(name));
      }
      var table := MatchNext(Identifier, "TABLE");
      if table {
        r := CreateTableBody();
        return;
      }
      var index := MatchNext(Identifier, "INDEX");
      if index {
        r := CreateIndexBody();
        return;
      }
      return Err;
    }

    method RenameBody() returns (r: Result<Command>)
      requires Valid()
      modifies this
      ensures Valid() && Agrees(r, Rest(), ParseRenameTable(old(Rest())))
    {
      var _ :- ExpectNext(Identifier, "TABLE");
      var oldName :- NextName();
      var _ :- ExpectNext(Identifier, "TO");
      var newName :- NextName();
      return Ok(RenameTable(oldName, newName));
    }

    method DropBody() returns (r: Result<Command>)
      requires Valid()
      modifies this
      ensures Valid() && Agrees(r, Rest(), ParseDropTable(old(Rest())))
    {
      var _ :- ExpectNext(Identifier, "TABLE");
      var table :- NextName();
      return Ok(DropTable(table));
    }

    method LoadBody() returns (r: Result<Command>)
      requires Valid()
      modifies this
      ensures Valid() && Agrees(r, Rest(), ParseLoad(old(Rest())))
    {
      var _ :- ExpectNext(Identifier, "DATABASE");
      var next := Peek();
      if next.kind == Identifier {
        var name := Advance();
        return Ok(LoadDatabase(Some(name.lexeme)));
      }
      return Ok(LoadDatabase(None));
    }

    method PrepareBody() returns (r: Result<Command>)
      requires Valid()
      modifies this
      ensures Valid() && Agrees(r, Rest(), ParsePrepare(old(Rest())))
    {
      var name :- NextName();
      var _ :- ExpectNext(Identifier, "AS");
      var sql := Advance();
      return if sql.kind == StringLiteral then Ok(Prepare(name, sql.lexeme)) else Err;
    }

    method ExecuteBody() returns (r: Result<Command>)
      requires Valid()
      modifies this
      ensures Valid() && Agrees(r, Rest(), ParseExecute(fp, old(Rest())))
    {
      var name :- NextName();
      var values := MatchNext(Identifier, "VALUES");
      if !values {
        return Ok(Execute(name, []));
      }
      var row :- Tuple();
      return Ok(Execute(name, row));
    }

    method Statement() returns (r: Result<Command>)
      requires Valid()
      modifies this
      ensures Valid() && Agrees(r, Rest(), ParseStatement(fp, old(Rest())))
    {
      hide Clean, NamedCommand, EqualsIgnoreCase, ParseCreate, ParseDropTable, ParseRenameTable, ParseInsert,
          ParseSelect, ParseUpdate,
        ParseDelete, ParseControl;
      var m := MatchNext(Identifier, "CREATE");
      if m { r := CreateBody(); return; }
      m := MatchNext(Identifier, "DROP");
      if m { r := DropBody(); return; }
      m := MatchNext(Identifier, "RENAME");
      if m { r := RenameBody(); return; }
      m := MatchNext(Identifier, "LIST");
      if m {
        var _ :- ExpectNext(Identifier, "TABLES");
        return Ok(ListTables);
      }
      m := MatchNext(Identifier, "INSERT");
      if m { r := InsertBody(); return; }
      m := MatchNext(Identifier, "SELECT");
      if m { r := SelectBody(); return; }
      m := MatchNext(Identifier, "UPDATE");
      if m { r := UpdateBody(); return; }
      m := MatchNext(Identifier, "DELETE");
      if m { r := DeleteBody(); return; }
      r := Control();
    }

    method Control() returns (r: Result<Command>)
      requires Valid()
      modifies this
      ensures Valid() && Agrees(r, Rest(), ParseControl(fp, old(Rest())))
    {
      hide Clean, NamedCommand, EqualsIgnoreCase, ParseLoad, ParsePrepare, ParseExecute;
      var m := MatchNext(Identifier, "SAVE");
      if m {
        var _ :- ExpectNext(Identifier, "DATABASE");
        return Ok(SaveDatabase);
      }
      m := MatchNext(Identifier, "LOAD");
      if m { r := LoadBody(); return; }
      m := MatchNext(Identifier, "BEGIN");
      if m { return Ok(Begin); }
      m := MatchNext(Identifier, "COMMIT");
      if m { return Ok(Commit); }
      m := MatchNext(Identifier, "ROLLBACK");
      if m { return Ok(Rollback); }
      m := MatchNext(Identifier, "PREPARE");
      if m { r := PrepareBody(); return; }
      m := MatchNext(Identifier, "EXECUTE");
      if m { r := ExecuteBody(); return; }
      m := MatchNext(Identifier, "EXIT");
      if m { return Ok(Exit); }
      return Err;
    }

    method ParseAll() returns (r: Result<Command>)
      requires Valid()
      modifies this
      ensures Valid() && r == ParseTokens(fp, old(Rest()))
    {
      var q :- Statement();
      var _ := MatchNext(Semicolon, "");
      var last := Peek();
      return if last.kind == End then Ok(q) else Err;
    }
  }

  /** What the tokenizer emits is a clean stream, so the parser may run on it. */
  lemma TokensAreClean(sql: string)
    requires Tokens(sql).Ok?
    ensures Clean(Tokens(sql).value)
  {
    var ts := Lex(sql).value;
    forall i | 0 <= i < |ts| && ts[i].kind == Identifier ensures IsName(ts[i].lexeme) {
      LexedNames(sql, i);
    }
  }

  /** `Parser::parse(std::string_view)`. */
  method ParseSql(fp: FloatText, sql: string) returns (r: Result<Command>)
    ensures r == Parse(fp, sql)
  {
    var ts :- Tokenize(sql);
    TokensAreClean(sql);
    var parser := new Parser(fp, ts);
    r := parser.ParseAll();
  }

  /**
   Whatever text is submitted, a statement that parses has well-formed names and no list the grammar needs is empty.
   */
  lemma ParsedIsNamed(fp: FloatText, sql: string)
    requires Parse(fp, sql).Ok?
    ensures NamedCommand(Parse(fp, sql).value)
  {
    TokensAreClean(sql);
    var statement := ParseStatement(fp, Tokens(sql).value);
    assert statement.Ok?;
  }
}
