/** include/VertexDB/parser/ast.hpp and token.hpp: tokens and the parsed statements. */
module Ast {
  import opened Results
  import opened Values

  datatype TokenKind =
    | Identifier | Number | StringLiteral
    | Comma | Semicolon | LeftParen | RightParen | Star | Equal | Greater | Less
    | End

  datatype Token = Token(kind: TokenKind, lexeme: string)

  datatype CompareOp = EqualTo | GreaterThan | LessThan

  datatype Predicate =
    | Comparison(column: string, op: CompareOp, value: Value)
    | And(left: Predicate, right: Predicate)
    | Or(left: Predicate, right: Predicate)

  datatype OrderBy = OrderBy(column: string, ascending: bool)

  datatype JoinClause = JoinClause(table: string, leftColumn: string, rightColumn: string)

  datatype Command =
    | CreateDatabase(name: string)
    | CreateTable(name: string, columns: seq<Column>)
    | DropTable(name: string)
    | RenameTable(oldName: string, newName: string)
    | ListTables
    | Insert(table: string, rows: seq<Row>)
    | Select(table: string, join: Option<JoinClause>, selected: seq<string>, where: Option<Predicate>,
             orderBy: Option<OrderBy>, limit: Option<nat>)
    | Update(table: string, column: string, value: Value, where: Option<Predicate>)
    | Delete(table: string, where: Option<Predicate>)
    | CreateIndex(name: string, table: string, column: string)
    | SaveDatabase
    | LoadDatabase(source: Option<string>)
    | Begin
    | Commit
    | Rollback
    | Prepare(name: string, sql: string)
    | Execute(name: string, parameters: seq<Value>)
    | Exit
}
