/** What each statement does to the database, said in terms of names, rows and cells. */
module Effects {
  import opened Results
  import opened Values
  import opened Ast
  import opened SqlText
  import opened Lists
  import opened Relations
  import opened WalFormat
  import opened WriteAheadLogs
  import opened Transactions
  import opened Execution

  // ----- Cells -----

  /** A cell takes NULL if the column is nullable, and otherwise values of the column's type only. */
  lemma CellsFit(c: Column, i: Int64, bits: Word64, s: string)
    ensures FitsColumn(c, Null) <==> c.nullable
    ensures FitsColumn(c, Int(i)) <==> c.ctype == IntType
    ensures FitsColumn(c, Dbl(bits)) <==> c.ctype == DoubleType
    ensures FitsColumn(c, Str(s)) <==> c.ctype == StringType
  {
  }

  /** The value may stand in the column. */
  predicate Accepts(c: Column, v: Value) {
    match v
    case Null => c.nullable
    case Int(_) => c.ctype == IntType
    case Dbl(_) => c.ctype == DoubleType
    case Str(_) => c.ctype == StringType
  }

  predicate AcceptsRow(schema: seq<Column>, row: Row) {
    |row| == |schema| && forall j :: 0 <= j < |row| ==> Accepts(schema[j], row[j])
  }

  lemma AcceptedIsValid(schema: seq<Column>, row: Row)
    ensures AcceptsRow(schema, row) <==> ValidRow(schema, row)
  {
  }

  // ----- Rows of one table -----

  /** The same database but for the rows of one table. */
  predicate OnlyRows(before: Db, after: Db, table: string) {
    && after.name == before.name && after.tables.Keys == before.tables.Keys && table in before.tables
    && (forall n :: n in before.tables && n != table ==> after.tables[n] == before.tables[n])
    && after.tables[table].name == before.tables[table].name
    && after.tables[table].schema == before.tables[table].schema
    && after.tables[table].indexColumns == before.tables[table].indexColumns
  }

  /** A statement on an unknown table throws and changes nothing. */
  lemma UnknownTable(db: Db, q: Command)
    requires (q.Insert? || q.Update? || q.Delete? || q.CreateIndex?) && q.table !in db.tables
    ensures DataEffect(Some(db), q) == Effect(Some(db), Threw, false)
  {
  }

  /**
   INSERT appends its rows in order when every cell of every row is accepted, and else throws and changes nothing: a
   NULL for a NOT NULL column, a value of another type and a row of another width are refused.
   */
  lemma InsertExactly(db: Db, table: string, rows: seq<Row>)
    requires table in db.tables
    ensures var e := DataEffect(Some(db), Insert(table, rows));
      var t := db.tables[table];
      if forall i :: 0 <= i < |rows| ==> AcceptsRow(t.schema, rows[i]) then
        && e.outcome == Done && e.logged && e.db.Some? && OnlyRows(db, e.db.value, table)
        && e.db.value.tables[table].rows == t.rows + rows
      else e == Effect(Some(db), Threw, false)
  {
    hide ValidRow, AcceptsRow;
    var t := db.tables[table];
    forall i | 0 <= i < |rows| ensures AcceptsRow(t.schema, rows[i]) <==> ValidRow(t.schema, rows[i]) {
      AcceptedIsValid(t.schema, rows[i]);
    }
  }

  /**
   UPDATE over existing columns assigns the value in the first column of the name, in exactly the rows the condition
   holds on; a value the column does not accept makes it throw if there is such a row, and then nothing changes.
   */
  lemma UpdateExactly(db: Db, q: Command, target: nat)
    requires ValidDb(db) && q.Update? && q.table in db.tables
    requires var t := db.tables[q.table];
      && WhereResolves(t.schema, q.where) && target < |t.schema| && t.schema[target].name == q.column
      && forall j :: 0 <= j < target ==> t.schema[j].name != q.column
    ensures var e := DataEffect(Some(db), q);
      var t := db.tables[q.table];
      var some := exists i :: 0 <= i < |t.rows| && Selected(t.schema, t.rows[i], q.where);
      if some && !Accepts(t.schema[target], q.value) then e == Effect(Some(db), Threw, false)
      else
        && e.outcome == Done && (e.logged <==> some) && e.db.Some? && OnlyRows(db, e.db.value, q.table)
        && |e.db.value.tables[q.table].rows| == |t.rows|
        && forall i :: 0 <= i < |t.rows| ==>
          |t.rows[i]| == |t.schema| && e.db.value.tables[q.table].rows[i] ==
            if Selected(t.schema, t.rows[i], q.where) then t.rows[i][target := q.value] else t.rows[i]
  {
    hide Selected, UpdateFrom, FitsColumn, Accepts, Resolves, IndexesResolve;
    var t := db.tables[q.table];
    assert ValidTable(t);
    AcceptsIsFits(t.schema[target], q.value);
    UpdateIsSimultaneous(t.schema, t.rows, target, q.value, q.where);
    assert db.tables[q.table := t.(rows := t.rows)] == db.tables;
    forall i | 0 <= i < |t.rows| ensures |t.rows[i]| == |t.schema| {
      assert ValidRow(t.schema, t.rows[i]);
    }
  }

  lemma AcceptsIsFits(c: Column, v: Value)
    ensures Accepts(c, v) <==> FitsColumn(c, v)
  {
  }

  lemma KeptLast(schema: seq<Column>, rows: seq<Row>, where: Option<Predicate>)
    requires rows != []
    ensures var n := |rows| - 1;
      Kept(schema, rows, where) ==
        if MatchesWhere(schema, rows[n], where) != Ok(true) then Kept(schema, rows[..n], where) + [rows[n]]
        else Kept(schema, rows[..n], where)
  {
    hide MatchesWhere, Kept;
    var n := |rows| - 1;
    KeptAppend(schema, rows[..n], [rows[n]], where);
    KeptOne(schema, rows[n], where);
    assert rows == rows[..n] + [rows[n]];
    assert Kept(schema, rows[..n], where) + [] == Kept(schema, rows[..n], where);
  }

  /** The positions of the rows a DELETE keeps. */
  ghost function Keeping(schema: seq<Column>, rows: seq<Row>, where: Option<Predicate>): nat -> bool {
    i => 0 <= i < |rows| && MatchesWhere(schema, rows[i], where) != Ok(true)
  }

  lemma KeepingPrefix(schema: seq<Column>, rows: seq<Row>, where: Option<Predicate>, n: nat)
    requires n <= |rows|
    ensures forall i: nat :: i < n ==>
        (Keeping(schema, rows[..n], where)(i) <==> Keeping(schema, rows, where)(i))
  {
    hide MatchesWhere;
  }

  lemma {:induction false} KeptMeans(schema: seq<Column>, rows: seq<Row>, where: Option<Predicate>)
      returns (ps: seq<nat>)
    ensures Enumerates(ps, |rows|, Keeping(schema, rows, where))
    ensures Takes(Kept(schema, rows, where), rows, ps)
  {
    hide MatchesWhere;
    if rows == [] {
      ps := [];
    } else {
      hide Enumerates, Takes, Kept;
      var n := |rows| - 1;
      KeptLast(schema, rows, where);
      var before := KeptMeans(schema, rows[..n], where);
      ps := if MatchesWhere(schema, rows[n], where) != Ok(true) then before + [n] else before;
      KeepingPrefix(schema, rows, where, n);
      assert Keeping(schema, rows, where)(n) <==> MatchesWhere(schema, rows[n], where) != Ok(true);
      hide Keeping, MatchesWhere;
      EnumerateNext(before, n, Keeping(schema, rows[..n], where), Keeping(schema, rows, where));
      TakesNext(Kept(schema, rows[..n], where), rows, before, n, Kept(schema, rows, where), ps);
    }
  }

  /** DELETE over existing columns leaves exactly the rows its condition does not hold on, in order. */
  lemma DeleteExactly(db: Db, q: Command) returns (ps: seq<nat>)
    requires ValidDb(db) && q.Delete? && q.table in db.tables && WhereResolves(db.tables[q.table].schema, q.where)
    ensures var e := DataEffect(Some(db), q);
      var t := db.tables[q.table];
      && e.outcome == Done && e.db.Some? && OnlyRows(db, e.db.value, q.table)
      && Enumerates(ps, |t.rows|, i => 0 <= i < |t.rows| && !Selected(t.schema, t.rows[i], q.where))
      && Takes(e.db.value.tables[q.table].rows, t.rows, ps) && (e.logged <==> |ps| < |t.rows|)
  {
    hide Selected, DeleteFrom, Kept, MatchesWhere, Resolves, ValidRow, IndexesResolve;
    var t := db.tables[q.table];
    assert ValidTable(t);
    ps := KeptMeans(t.schema, t.rows, q.where);
    DeleteIsFilter(t.schema, t.rows, q.where);
    forall i | 0 <= i < |t.rows|
      ensures MatchesWhere(t.schema, t.rows[i], q.where) == Ok(Selected(t.schema, t.rows[i], q.where))
    {
      RowIsWide(t, i);
      WhereIsLogic(t.schema, t.rows[i], q.where);
    }
  }

  lemma RowIsWide(t: TableV, i: nat)
    requires ValidTable(t) && i < |t.rows|
    ensures |t.rows[i]| == |t.schema|
  {
    assert ValidRow(t.schema, t.rows[i]);
  }

  // ----- Tables -----

  /**
   CREATE TABLE files an empty table without indexes under a free name; on a taken name it fails, and on an empty schema
   it throws, and the database stays as it is.
   */
  lemma CreateTableExactly(db: Db, name: string, columns: seq<Column>)
    requires name != ""
    ensures DataEffect(Some(db), CreateTable(name, columns)) ==
      if columns == [] then Effect(Some(db), Threw, false)
      else if name in db.tables then Effect(Some(db), Failed, false)
      else Effect(Some(Db(db.name, db.tables[name := TableV(name, columns, [], map[])])), Done, true)
  {
  }

  /** DROP TABLE takes the named table away and no other; an unknown name fails. */
  lemma DropTableExactly(db: Db, name: string)
    ensures var e := DataEffect(Some(db), DropTable(name));
      if name !in db.tables then e == Effect(Some(db), Failed, false)
      else
        && e.outcome == Done && e.logged && e.db.Some? && e.db.value.name == db.name
        && e.db.value.tables.Keys == db.tables.Keys - {name}
        && forall n :: n in db.tables && n != name ==> e.db.value.tables[n] == db.tables[n]
  {
  }

  /** RENAME TABLE moves schema, rows and indexes to a free name; an unknown or a taken one fails. */
  lemma RenameTableExactly(db: Db, oldName: string, newName: string)
    requires ValidDb(db) && newName != ""
    ensures var e := DataEffect(Some(db), RenameTable(oldName, newName));
      if oldName !in db.tables || newName in db.tables then e == Effect(Some(db), Failed, false)
      else
        && e.outcome == Done && e.logged && e.db.Some? && e.db.value.name == db.name
        && e.db.value.tables.Keys == db.tables.Keys - {oldName} + {newName}
        && e.db.value.tables[newName] == db.tables[oldName].(name := newName)
        && forall n :: n in db.tables && n != oldName ==> e.db.value.tables[n] == db.tables[n]
  {
    hide ValidRows;
    if oldName in db.tables {
      assert ValidTable(db.tables[oldName]);
    }
  }

  /** CREATE INDEX adds the index on the first column of the name; an unknown column or a taken index name fails. */
  lemma CreateIndexExactly(db: Db, q: Command)
    requires q.CreateIndex? && q.table in db.tables
    ensures var e := DataEffect(Some(db), q);
      var t := db.tables[q.table];
      if q.name in t.indexColumns || forall j :: 0 <= j < |t.schema| ==> t.schema[j].name != q.column then
        e == Effect(Some(db), Failed, false)
      else
        exists i ::
          && 0 <= i < |t.schema| && t.schema[i].name == q.column
          && (forall j :: 0 <= j < i ==> t.schema[j].name != q.column)
          && e == Effect(Some(db.(tables :=
               db.tables[q.table := t.(indexColumns := t.indexColumns[q.name := i])])), Done, true)
  {
  }

  /** The log names each data statement by its own operation. */
  lemma OperationNamed(q: Command)
    requires IsData(q)
    ensures (q.CreateTable? <==> Operation(q) == CreateTableOp) && (q.DropTable? <==> Operation(q) == DropTableOp)
    ensures (q.RenameTable? <==> Operation(q) == RenameTableOp) && (q.Insert? <==> Operation(q) == InsertOp)
    ensures (q.Update? <==> Operation(q) == UpdateOp) && (q.Delete? <==> Operation(q) == DeleteOp)
    ensures q.CreateIndex? <==> Operation(q) == CreateIndexOp
  {
  }

  // ----- Databases and transactions -----

  /** PREPARE keeps the text under its name, in place of an earlier one, and nothing else changes. */
  lemma PrepareKeepsText(fp: FloatText, st: State, name: string, sql: string)
    requires ValidState(st)
    ensures var next := StepUnlocked(fp, st, Prepare(name, sql));
      && next.1 == Done && next.0 == st.(prepared := next.0.prepared)
      && name in next.0.prepared && next.0.prepared[name] == sql
      && forall n :: n != name ==>
        (n in next.0.prepared <==> n in st.prepared) && (n in st.prepared ==> next.0.prepared[n] == st.prepared[n])
  {
    hide ValidDb;
  }

  /** CREATE DATABASE opens an empty database of the name, whatever was open before. */
  lemma CreateDatabaseExactly(st: State, name: string)
    requires name != "" && Log(st, CreateDatabaseOp, name).Ok?
    ensures var next := CreateDatabaseStep(st, name);
      next.1 == Done && next.0.db == Some(Db(name, map[])) && next.0.disk == st.disk
  {
    hide AppendTo;
  }

  /** COMMIT and ROLLBACK end the active transaction and record which of the two it was. */
  lemma EndingIsRecorded(fp: FloatText, st: State)
    requires ValidState(st) && st.snapshot.Some? && st.active.Some? && IsActive(st.transactions, st.active.value)
    ensures var committed := StepUnlocked(fp, st, Commit);
      && committed.1 == Done && committed.0.db == st.db
      && st.active.value in committed.0.transactions.states
      && committed.0.transactions.states[st.active.value] == Committed
    ensures var rolledBack := StepUnlocked(fp, st, Rollback);
      && rolledBack.1 == Done && rolledBack.0.db == st.snapshot
      && st.active.value in rolledBack.0.transactions.states
      && rolledBack.0.transactions.states[st.active.value] == RolledBack
  {
    hide ValidDb;
  }

  /** BEGIN keeps the database and remembers it, under a fresh identifier. */
  lemma BeginRemembers(fp: FloatText, st: State)
    requires ValidState(st) && st.db.Some? && st.snapshot.None? && ValidManager(st.transactions)
    ensures var begun := StepUnlocked(fp, st, Begin);
      && begun.1 == Done && begun.0.db == st.db && begun.0.snapshot == st.db && begun.0.active.Some?
      && begun.0.active.value !in st.transactions.states
      && IsActive(begun.0.transactions, begun.0.active.value)
  {
    hide ValidDb;
  }
}
