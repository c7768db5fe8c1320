/**
 What logging literals as text costs. A double is printed with `operator<<`, which may drop the point, round, or write
 an exponent the tokenizer does not know. The log is replayed through the parser, so a logged statement survives a
 restart exactly when the statement it reads back as has the same effect.
 */
module Doubles {
  import opened Results
  import opened Values
  import opened Ast
  import opened Lexer
  import opened SqlText
  import opened Grammar
  import opened LiteralText
  import opened SqlRoundTrip
  import opened Relations
  import opened WalFormat
  import opened WriteAheadLogs
  import opened Execution
  import opened Replays

  // ----- Replaying what was read back -----

  /** The database after a statement as read back is replayed; an exception abandons it. */
  function ReplayedAs(db: Option<Db>, q: Result<Command>): Option<Db>
    requires q.Ok? ==> IsData(q.value)
  {
    if q.Err? || DataEffect(db, q.value).outcome == Threw then None else DataEffect(db, q.value).db
  }

  lemma ReadBackIsLogged(fp: FloatText, q: Command)
    requires Logged(q) && ReadBack(fp, q).Ok?
    ensures Logged(ReadBack(fp, q).value) && IsData(ReadBack(fp, q).value)
  {
    hide ReadAs, WhereReadAs, RowReadAs;
  }

  /** The database after the logged text of a statement is replayed. */
  function Reread(fp: FloatText, db: Option<Db>, q: Command): Option<Db>
    requires Logged(q)
  {
    if ReadBack(fp, q).Ok? then
      ReadBackIsLogged(fp, q);
      ReplayedAs(db, ReadBack(fp, q))
    else None
  }

  lemma ReplayRead(fp: FloatText, st: State, q: Result<Command>, r: WalRecord)
    requires ValidState(st) && st.replaying && r.operation != SaveDatabaseOp && r.operation != CreateDatabaseOp
    requires Parse(fp, r.payload) == q && (q.Ok? ==> Logged(q.value) && IsData(q.value))
    ensures Replay(fp, st, [r]).db == ReplayedAs(st.db, q)
  {
    hide Parse, StepUnlocked, ValidDb, DataEffect;
    assert [r][1..] == [];
    if q.Ok? {
      ReplayedStep(fp, st, q.value);
      StepKeepsValid(fp, st, q.value);
    }
  }

  // ----- Restarts after more records -----

  predicate NoSaves(records: seq<WalRecord>) {
    forall i :: 0 <= i < |records| ==> records[i].operation != SaveDatabaseOp
  }

  lemma {:induction false} PendingMore(disk: map<string, string>, records: seq<WalRecord>, more: seq<WalRecord>)
    requires NoSaves(more)
    ensures Pending(disk, records + more) == Pending(disk, records) + more
    decreases |more|
  {
    hide Pending;
    if more == [] {
      assert records + more == records && Pending(disk, records) + [] == Pending(disk, records);
    } else {
      var front, last := more[..|more| - 1], more[|more| - 1];
      PendingMore(disk, records, front);
      PendingExtend(disk, records + front, last);
      assert records + more == records + front + [last];
      assert Pending(disk, records) + front + [last] == Pending(disk, records) + more;
    }
  }

  /** The state in which a restart replays the records appended since a consistent state. */
  function Resumed(st: State, file: string): State {
    Start(st.disk, file).(db := st.db, replaying := true)
  }

  lemma RecoverMore(fp: FloatText, st: State, records: seq<WalRecord>, more: seq<WalRecord>)
    requires Consistent(fp, st, records) && NoSaves(more) && AllFit(records + more)
    ensures var file := EncodeAll(records + more);
      ValidState(Resumed(st, file)) && Recover(fp, st.disk, file).db == Replay(fp, Resumed(st, file), more).db
  {
    hide ReplayAll, Replay, EncodeAll, Pending, Holds, Recover, LoadFirst, ValidDb;
    var file := EncodeAll(records + more);
    RecoverIsReplay(fp, st.disk, records + more);
    PendingMore(st.disk, records, more);
    ReplaySplit(fp, Start(st.disk, file).(db := Base(st.disk), replaying := true), Pending(st.disk, records), more);
  }

  // ----- Statements with one record -----

  /** Replaying what the statement reads back as does what the statement did. */
  predicate SameEffect(fp: FloatText, db: Option<Db>, q: Command)
    requires Logged(q)
  {
    var read := ReadBack(fp, q);
    read.Ok? && IsData(read.value) &&
    DataEffect(db, read.value).outcome != Threw && DataEffect(db, read.value).db == DataEffect(db, q).db
  }

  /** A restart after a logged statement replays the statement as it reads back. */
  lemma LoggedRestart(fp: FloatText, st: State, records: seq<WalRecord>, q: Command)
    requires Consistent(fp, st, records) && Logged(q) && !q.Insert? && NamedCommand(q) && ShapedCommand(fp, q)
    requires DataEffect(st.db, q).logged && |StatementText(fp, q)| < TWO_64 && |records| + 2 < TWO_64
    ensures var next := DataStep(fp, st, q).0;
      next.db == DataEffect(st.db, q).db &&
      Recover(fp, next.disk, next.wal.file).db == Reread(fp, st.db, q)
  {
    hide StatementText, EncodeAll, ReplayAll, Replay, Recover, DataEffect, AppendTo, Parse, ReadBack, ValidDb,
        LoadFirst, Pending, ShapedCommand, NamedCommand;
    var r := WalRecord(|records| + 1, Operation(q), StatementText(fp, q));
    AppendHolds(st.wal, records, r.operation, r.payload);
    var next := DataStep(fp, st, q).0;
    assert next == st.(db := DataEffect(st.db, q).db, wal := AppendTo(st.wal, r.operation, r.payload).value);
    RecoverMore(fp, st, records, [r]);
    StatementReadsBack(fp, q);
    if ReadBack(fp, q).Ok? { ReadBackIsLogged(fp, q); }
    ReplayRead(fp, Resumed(st, EncodeAll(records + [r])), ReadBack(fp, q), r);
  }

  /**
   A logged statement leaves a recoverable database exactly when it reads back as a statement with the same effect.
   */
  lemma LoggedRecoversExactly(fp: FloatText, st: State, records: seq<WalRecord>, q: Command)
    requires Consistent(fp, st, records) && Logged(q) && !q.Insert? && NamedCommand(q) && ShapedCommand(fp, q)
    requires DataEffect(st.db, q).logged && |StatementText(fp, q)| < TWO_64 && |records| + 2 < TWO_64
    ensures Recovers(fp, DataStep(fp, st, q).0) <==> SameEffect(fp, st.db, q)
  {
    hide StatementText, DataEffect, ReadBack, Consistent, ShapedCommand, NamedCommand, DataStep, Recover;
    LoggedRestart(fp, st, records, q);
    LoggedHasDatabase(st.db, q);
    if ReadBack(fp, q).Ok? { ReadBackIsLogged(fp, q); }
  }

  lemma LoggedHasDatabase(db: Option<Db>, q: Command)
    requires IsData(q) && DataEffect(db, q).logged
    ensures DataEffect(db, q).db.Some?
  {
    hide UpdateFrom, DeleteFrom, ColumnIndex;
  }

  // ----- UPDATE -----

  /** The rows an UPDATE that met no exception leaves. */
  function UpdatedRows(schema: seq<Column>, rows: seq<Row>, target: nat, value: Value,
      where: Option<Predicate>): (r: seq<Row>)
    requires target < |schema|
    ensures |r| == |rows|
    ensures forall i :: 0 <= i < |rows| ==> r[i] == Updated(schema, rows[i], target, value, where)
  {
    hide Updated;
    seq(|rows|, i requires 0 <= i < |rows| => Updated(schema, rows[i], target, value, where))
  }

  lemma UpdateIsRowByRow(schema: seq<Column>, rows: seq<Row>, target: nat, value: Value, where: Option<Predicate>)
    requires target < |schema|
    ensures var changed := UpdateFrom(schema, rows, target, value, where, 0);
      && (changed.threw <==> exists i :: 0 <= i < |rows| && UpdateFails(schema, rows[i], target, value, where))
      && (!changed.threw ==> changed.rows == UpdatedRows(schema, rows, target, value, where))
  {
    hide Updated, UpdateFails, UpdateFrom, UpdateStop;
    UpdateMeaning(schema, rows, target, value, where, 0);
    UpdateStopIsFirst(schema, rows, target, value, where, 0);
  }

  /**
   A logged UPDATE survives exactly when its value and its predicate read back, the statement read back throws at no
   row, and every row comes out of it as it came out of the statement itself.
   */
  lemma UpdateSurvivesExactly(fp: FloatText, db: Db, q: Command)
    requires q.Update? && DataEffect(Some(db), q).logged
    ensures var t := db.tables[q.table];
      var target := ColumnIndex(t.schema, q.column).value;
      var value, where := ReadAs(fp, q.value), WhereReadAs(fp, q.where);
      SameEffect(fp, Some(db), q) <==>
        value.Ok? && where.Ok? && forall i :: 0 <= i < |t.rows| ==>
          && !UpdateFails(t.schema, t.rows[i], target, value.value, where.value)
          && Updated(t.schema, t.rows[i], target, value.value, where.value)
             == Updated(t.schema, t.rows[i], target, q.value, q.where)
  {
    hide WhereReadAs, ReadAs, UpdateFrom, UpdateFails, Updated, ColumnIndex;
    var t := db.tables[q.table];
    var target := ColumnIndex(t.schema, q.column).value;
    var value, where := ReadAs(fp, q.value), WhereReadAs(fp, q.where);
    if value.Ok? && where.Ok? {
      UpdateIsRowByRow(t.schema, t.rows, target, q.value, q.where);
      UpdateIsRowByRow(t.schema, t.rows, target, value.value, where.value);
      SameTableSameDb(db, q.table, t.(rows := UpdatedRows(t.schema, t.rows, target, q.value, q.where)),
          t.(rows := UpdatedRows(t.schema, t.rows, target, value.value, where.value)));
    }
  }

  lemma ResolvedUpdate(t: TableV, i: nat, target: nat, value: Value, where: Option<Predicate>)
    requires ValidTable(t) && i < |t.rows| && target < |t.schema| && WhereResolves(t.schema, where)
    ensures |t.rows[i]| == |t.schema|
    ensures UpdateFails(t.schema, t.rows[i], target, value, where)
        <==> Selected(t.schema, t.rows[i], where) && !FitsColumn(t.schema[target], value)
    ensures Updated(t.schema, t.rows[i], target, value, where)
        == if Selected(t.schema, t.rows[i], where) then t.rows[i][target := value] else t.rows[i]
  {
    hide MatchesWhere, Selected, FitsColumn, IndexesResolve;
    assert ValidRow(t.schema, t.rows[i]);
    WhereIsLogic(t.schema, t.rows[i], where);
  }

  /** Row `i` ends with the same cell, whether `a` is assigned where `p` selects it or `b` where `q` does. */
  predicate SameCell(t: TableV, i: nat, target: nat, a: Value, p: Option<Predicate>, b: Value, q: Option<Predicate>)
    requires i < |t.rows| && target < |t.rows[i]|
  {
    var row := t.rows[i];
    (if Selected(t.schema, row, p) then a else row[target]) == if Selected(t.schema, row, q) then b else row[target]
  }

  /**
   Over existing columns: the value read back must fit the column, unless no row is selected any more, and every row
   must end with the same cell. A predicate with a rounded double may select other rows; that is harmless exactly on
   rows whose cell holds the assigned value already.
   */
  lemma ResolvedUpdateSurvivesExactly(fp: FloatText, db: Db, q: Command)
    requires ValidDb(db) && q.Update? && DataEffect(Some(db), q).logged
    requires WhereResolves(db.tables[q.table].schema, q.where)
    ensures var t := db.tables[q.table];
      var target := ColumnIndex(t.schema, q.column).value;
      var value, where := ReadAs(fp, q.value), WhereReadAs(fp, q.where);
      SameEffect(fp, Some(db), q) <==>
        && value.Ok? && where.Ok?
        && (FitsColumn(t.schema[target], value.value) ||
            forall i :: 0 <= i < |t.rows| ==> !Selected(t.schema, t.rows[i], where.value))
        && forall i :: 0 <= i < |t.rows| ==>
          SameCell(t, i, target, value.value, where.value, q.value, q.where)
  {
    hide PredicateReadAs, ReadAs, UpdateFails, Updated, ColumnIndex, Selected, FitsColumn, ValidTable, SameEffect,
        Resolves, UpdateFrom;
    var t := db.tables[q.table];
    var target := ColumnIndex(t.schema, q.column).value;
    var value, where := ReadAs(fp, q.value), WhereReadAs(fp, q.where);
    UpdateSurvivesExactly(fp, db, q);
    if value.Ok? && where.Ok? {
      if q.where.Some? { ColumnsStay(fp, t.schema, q.where.value); }
      forall i | 0 <= i < |t.rows|
        ensures |t.rows[i]| == |t.schema|
        ensures UpdateFails(t.schema, t.rows[i], target, value.value, where.value)
            <==> Selected(t.schema, t.rows[i], where.value) && !FitsColumn(t.schema[target], value.value)
        ensures SameCell(t, i, target, value.value, where.value, q.value, q.where) <==>
            Updated(t.schema, t.rows[i], target, value.value, where.value)
              == Updated(t.schema, t.rows[i], target, q.value, q.where)
      {
        ResolvedUpdate(t, i, target, value.value, where.value);
        ResolvedUpdate(t, i, target, q.value, q.where);
        SameAssignment(t.rows[i], target, Selected(t.schema, t.rows[i], where.value), value.value,
            Selected(t.schema, t.rows[i], q.where), q.value);
      }
    }
  }

  lemma SameAssignment(row: Row, target: nat, x: bool, a: Value, y: bool, b: Value)
    requires target < |row|
    ensures (if x then row[target := a] else row) == (if y then row[target := b] else row) <==>
        (if x then a else row[target]) == (if y then b else row[target])
  {
    assert row[target := row[target]] == row;
    assert row[target := a][target] == a && row[target := b][target] == b;
  }

  /** An UPDATE whose predicate reads back as itself survives exactly when its value does: some row holds the value. */
  lemma UpdateValueSurvivesExactly(fp: FloatText, db: Db, q: Command)
    requires ValidDb(db) && q.Update? && DataEffect(Some(db), q).logged
    requires q.where.Some? ==> PredicateRereads(fp, q.where.value)
    ensures SameEffect(fp, Some(db), q) <==> Rereads(fp, q.value)
  {
    hide PredicateRereads, PredicateReadAs, Rereads, ReadAs, UpdateFails, Updated, UpdateFrom, ColumnIndex, ValidDb,
        SameEffect, MatchesWhere;
    RereadsExactly(fp, q.value);
    if q.where.Some? { PredicateRereadsExactly(fp, q.where.value); }
    var t := db.tables[q.table];
    var target := ColumnIndex(t.schema, q.column).value;
    UpdateSurvivesExactly(fp, db, q);
    LoggedHitsARow(db, q);
    var i :| 0 <= i < |t.rows| && MatchesWhere(t.schema, t.rows[i], q.where) == Ok(true);
    UpdatedCell(db, q, i, target);
    forall j | 0 <= j < |t.rows| ensures !UpdateFails(t.schema, t.rows[j], target, q.value, q.where) {
      UpdateIsRowByRow(t.schema, t.rows, target, q.value, q.where);
    }
  }

  lemma UpdatedCell(db: Db, q: Command, i: nat, target: nat)
    requires ValidDb(db) && q.Update? && q.table in db.tables && i < |db.tables[q.table].rows|
    requires target < |db.tables[q.table].schema|
    requires MatchesWhere(db.tables[q.table].schema, db.tables[q.table].rows[i], q.where) == Ok(true)
    ensures var t := db.tables[q.table];
      forall v :: target < |Updated(t.schema, t.rows[i], target, v, q.where)| &&
          Updated(t.schema, t.rows[i], target, v, q.where)[target] == v
  {
    hide MatchesWhere, FitsColumn, IndexesResolve;
    var t := db.tables[q.table];
    assert ValidTable(t) && ValidRow(t.schema, t.rows[i]);
  }

  lemma LoggedHitsARow(db: Db, q: Command)
    requires q.Update? && DataEffect(Some(db), q).logged
    ensures var t := db.tables[q.table];
      exists i :: 0 <= i < |t.rows| && MatchesWhere(t.schema, t.rows[i], q.where) == Ok(true)
  {
    hide MatchesWhere, UpdateFrom, UpdateStop;
    var t := db.tables[q.table];
    var target := ColumnIndex(t.schema, q.column).value;
    UpdateMeaning(t.schema, t.rows, target, q.value, q.where, 0);
    CountMatchingZero(t.schema, t.rows, q.where, 0, UpdateStop(t.schema, t.rows, target, q.value, q.where, 0));
  }

  // ----- DELETE -----

  lemma {:induction false} ColumnsStay(fp: FloatText, schema: seq<Column>, p: Predicate)
    requires PredicateReadAs(fp, p).Ok?
    ensures Resolves(schema, PredicateReadAs(fp, p).value) <==> Resolves(schema, p)
  {
    hide ReadAs, ColumnIndex;
    if !p.Comparison? {
      ColumnsStay(fp, schema, p.left);
      ColumnsStay(fp, schema, p.right);
    }
  }

  lemma {:induction false} KeptCounts(schema: seq<Column>, rows: seq<Row>, where: Option<Predicate>, row: Row)
    ensures multiset(Kept(schema, rows, where))[row] ==
      if MatchesWhere(schema, row, where) == Ok(true) then 0 else multiset(rows)[row]
  {
    hide MatchesWhere;
    if rows != [] {
      KeptCounts(schema, rows[1..], where, row);
      assert rows == [rows[0]] + rows[1..];
    }
  }

  lemma {:induction false} KeptSame(schema: seq<Column>, rows: seq<Row>, a: Option<Predicate>, b: Option<Predicate>)
    requires forall i :: 0 <= i < |rows| ==>
        (MatchesWhere(schema, rows[i], a) == Ok(true) <==> MatchesWhere(schema, rows[i], b) == Ok(true))
    ensures Kept(schema, rows, a) == Kept(schema, rows, b)
  {
    hide MatchesWhere;
    if rows != [] {
      assert forall i :: 0 < i < |rows| ==> rows[i] == rows[1..][i - 1];
      KeptSame(schema, rows[1..], a, b);
    }
  }

  /** Two predicates leave the same rows exactly when they select the same ones. */
  lemma KeptDecides(schema: seq<Column>, rows: seq<Row>, a: Option<Predicate>, b: Option<Predicate>)
    ensures Kept(schema, rows, a) == Kept(schema, rows, b) <==>
      forall i :: 0 <= i < |rows| ==>
          (MatchesWhere(schema, rows[i], a) == Ok(true) <==> MatchesWhere(schema, rows[i], b) == Ok(true))
  {
    hide MatchesWhere, Kept;
    if Kept(schema, rows, a) == Kept(schema, rows, b) {
      forall i | 0 <= i < |rows|
        ensures MatchesWhere(schema, rows[i], a) == Ok(true) <==> MatchesWhere(schema, rows[i], b) == Ok(true)
      {
        KeptCounts(schema, rows, a, rows[i]);
        KeptCounts(schema, rows, b, rows[i]);
        assert multiset(rows)[rows[i]] > 0;
      }
    } else if forall i :: 0 <= i < |rows| ==>
        (MatchesWhere(schema, rows[i], a) == Ok(true) <==> MatchesWhere(schema, rows[i], b) == Ok(true)) {
      KeptSame(schema, rows, a, b);
    }
  }

  lemma SameTruth(a: Result<bool>, b: Result<bool>)
    requires b.Ok?
    ensures a == b <==> a.Ok? && (a == Ok(true) <==> b == Ok(true))
  {
    if a.Ok? && (a == Ok(true) <==> b == Ok(true)) {
      assert a.value == b.value;
    }
  }

  lemma DeleteIsRowByRow(schema: seq<Column>, rows: seq<Row>, where: Option<Predicate>)
    ensures var changed := DeleteFrom(schema, rows, where, |rows|);
      && (changed.threw <==> exists i :: 0 <= i < |rows| && MatchesWhere(schema, rows[i], where).Err?)
      && (!changed.threw ==> changed.rows == Kept(schema, rows, where))
  {
    hide MatchesWhere, Kept, DeleteFrom, DeleteStop;
    DeleteMeaning(schema, rows, where, |rows|);
    DeleteStopIsLast(schema, rows, where, |rows|);
    assert rows[0..|rows|] == rows && rows[..0] == [] && rows[|rows|..] == [];
    assert [] + Kept(schema, rows, where) + [] == Kept(schema, rows, where);
  }

  /**
   A DELETE that meets no exception survives exactly when its predicate reads back as one that evaluates to the same on
   every row.
   */
  lemma DeleteSurvivesExactly(fp: FloatText, db: Db, q: Command)
    requires q.Delete? && q.table in db.tables && DataEffect(Some(db), q).outcome == Done
    ensures var t := db.tables[q.table];
      var where := WhereReadAs(fp, q.where);
      SameEffect(fp, Some(db), q) <==>
        where.Ok? && forall i :: 0 <= i < |t.rows| ==>
          MatchesWhere(t.schema, t.rows[i], where.value) == MatchesWhere(t.schema, t.rows[i], q.where)
  {
    hide WhereReadAs, DeleteFrom, Kept, MatchesWhere;
    var t := db.tables[q.table];
    var where := WhereReadAs(fp, q.where);
    if where.Ok? {
      DeleteIsRowByRow(t.schema, t.rows, q.where);
      DeleteIsRowByRow(t.schema, t.rows, where.value);
      KeptDecides(t.schema, t.rows, q.where, where.value);
      SameTableSameDb(db, q.table, t.(rows := Kept(t.schema, t.rows, q.where)),
          t.(rows := Kept(t.schema, t.rows, where.value)));
      forall i | 0 <= i < |t.rows|
        ensures var a, b := MatchesWhere(t.schema, t.rows[i], where.value), MatchesWhere(t.schema, t.rows[i], q.where);
          a == b <==> a.Ok? && (a == Ok(true) <==> b == Ok(true))
      {
        SameTruth(MatchesWhere(t.schema, t.rows[i], where.value), MatchesWhere(t.schema, t.rows[i], q.where));
      }
    }
  }

  /**
   A DELETE over existing columns survives exactly when its predicate reads back as one that selects the same rows.
   */
  lemma ResolvedDeleteSurvivesExactly(fp: FloatText, db: Db, q: Command)
    requires ValidDb(db) && q.Delete? && q.table in db.tables && WhereResolves(db.tables[q.table].schema, q.where)
    ensures var t := db.tables[q.table];
      var where := WhereReadAs(fp, q.where);
      SameEffect(fp, Some(db), q) <==>
        where.Ok? && forall i :: 0 <= i < |t.rows| ==>
          (Selected(t.schema, t.rows[i], where.value) <==> Selected(t.schema, t.rows[i], q.where))
  {
    hide PredicateReadAs, DeleteFrom, Kept, Selected, MatchesWhere, ValidRow, Resolves, SameEffect;
    var t := db.tables[q.table];
    var where := WhereReadAs(fp, q.where);
    DeleteIsFilter(t.schema, t.rows, q.where);
    DeleteSurvivesExactly(fp, db, q);
    if where.Ok? {
      if q.where.Some? { ColumnsStay(fp, t.schema, q.where.value); }
      forall i | 0 <= i < |t.rows|
        ensures MatchesWhere(t.schema, t.rows[i], q.where) == Ok(Selected(t.schema, t.rows[i], q.where))
        ensures MatchesWhere(t.schema, t.rows[i], where.value) == Ok(Selected(t.schema, t.rows[i], where.value))
      {
        assert ValidRow(t.schema, t.rows[i]);
        WhereIsLogic(t.schema, t.rows[i], q.where);
        WhereIsLogic(t.schema, t.rows[i], where.value);
      }
    }
  }

  lemma SameTableSameDb(db: Db, table: string, a: TableV, b: TableV)
    ensures db.(tables := db.tables[table := a]) == db.(tables := db.tables[table := b]) <==> a == b
  {
    assert db.tables[table := a][table] == a && db.tables[table := b][table] == b;
  }

  // ----- INSERT -----

  /** The records a multi-row insert appends, one per row. */
  function InsertRecords(fp: FloatText, count: nat, table: string, rows: seq<Row>): seq<WalRecord>
    decreases |rows|
  {
    if rows == [] then []
    else
      [WalRecord(count + 1, InsertOp, InsertSql(fp, table, rows[0]))]
      + InsertRecords(fp, count + 1, table, rows[1..])
  }

  /** Inserting the first row and then the others inserts them all. */
  lemma InsertOneByOne(before: Option<Db>, table: string, rows: seq<Row>)
    requires rows != [] && InsertEffect(before, table, rows).outcome == Done
    ensures var first := InsertEffect(before, table, [rows[0]]);
      && first.outcome == Done
      && InsertEffect(first.db, table, rows[1..]).outcome == Done
      && InsertEffect(first.db, table, rows[1..]).db == InsertEffect(before, table, rows).db
    ensures rows[1..] == [] ==> InsertEffect(before, table, [rows[0]]).db == InsertEffect(before, table, rows).db
  {
    hide ValidRow;
    var db := before.value;
    var t := db.tables[table];
    assert t.rows + [rows[0]] + rows[1..] == t.rows + rows;
    var one, all := t.(rows := t.rows + [rows[0]]), t.(rows := t.rows + rows);
    assert db.tables[table := one][table := all] == db.tables[table := all];
    if rows[1..] == [] {
      assert rows == [rows[0]];
    }
  }

  lemma {:induction false} InsertRecordsFit(fp: FloatText, count: nat, table: string, rows: seq<Row>)
    ensures NoSaves(InsertRecords(fp, count, table, rows))
    decreases |rows|
  {
    hide InsertSql;
    if rows != [] {
      InsertRecordsFit(fp, count + 1, table, rows[1..]);
    }
  }

  /** The insert loop leaves the rows in the table and one record each in the log. */
  lemma {:induction false} InsertLoopLogs(fp: FloatText, st: State, records: seq<WalRecord>, table: string,
      rows: seq<Row>)
    requires !st.replaying && Holds(st.wal, records) && InsertEffect(st.db, table, rows).outcome == Done
    requires forall i :: 0 <= i < |rows| ==> |InsertSql(fp, table, rows[i])| < TWO_64
    requires |records| + |rows| + 2 < TWO_64
    ensures var result := InsertLoop(fp, st, table, rows);
      && result.1 == Done && result.0 == st.(db := result.0.db, wal := result.0.wal)
      && Holds(result.0.wal, records + InsertRecords(fp, |records|, table, rows))
      && result.0.db == (if rows == [] then st.db else InsertEffect(st.db, table, rows).db)
    decreases |rows|
  {
    hide InsertSql, InsertEffect, AppendTo, Holds;
    if rows == [] {
      assert records + [] == records;
    } else {
      var r := WalRecord(|records| + 1, InsertOp, InsertSql(fp, table, rows[0]));
      InsertOneByOne(st.db, table, rows);
      AppendHolds(st.wal, records, InsertOp, r.payload);
      var next := Log(st, InsertOp, r.payload).value.(db := InsertEffect(st.db, table, [rows[0]]).db);
      InsertLoopLogs(fp, next, records + [r], table, rows[1..]);
      Reassociate(records, r, InsertRecords(fp, |records| + 1, table, rows[1..]));
    }
  }

  lemma Reassociate(a: seq<WalRecord>, r: WalRecord, b: seq<WalRecord>)
    ensures a + [r] + b == a + ([r] + b)
  {
  }

  function RowsReadAs(fp: FloatText, rows: seq<Row>): Result<seq<Row>> {
    if rows == [] then Ok([])
    else
      var row :- RowReadAs(fp, rows[0]);
      var rest :- RowsReadAs(fp, rows[1..]);
      Ok([row] + rest)
  }

  lemma {:induction false} RowsReadThemselves(fp: FloatText, rows: seq<Row>)
    ensures RowsReadAs(fp, rows) == Ok(rows) <==> forall i :: 0 <= i < |rows| ==> PrintableRow(fp, rows[i])
  {
    hide RowReadAs, PrintableRow;
    if rows != [] {
      RowsReadThemselves(fp, rows[1..]);
      RowReadsAsItself(fp, rows[0]);
      assert rows == [rows[0]] + rows[1..];
      assert forall i :: 0 < i < |rows| ==> rows[i] == rows[1..][i - 1];
    }
  }

  /** The database after the records of an INSERT are replayed one by one. */
  function ReplayedRows(fp: FloatText, db: Option<Db>, table: string, rows: seq<Row>): Option<Db>
    decreases |rows|
  {
    if rows == [] then db
    else
      var next := ReplayedAs(db, InsertReadAs(fp, table, rows[0]));
      if next.None? then None else ReplayedRows(fp, next, table, rows[1..])
  }

  /** Replaying inserts the rows as they read back, or abandons the database. */
  lemma {:induction false} ReplayedRowsAre(fp: FloatText, db: Db, table: string, rows: seq<Row>)
    requires table in db.tables
    ensures var t := db.tables[table];
      var back := RowsReadAs(fp, rows);
      ReplayedRows(fp, Some(db), table, rows) ==
        if back.Ok? && ValidRows(t.schema, back.value)
        then Some(db.(tables := db.tables[table := t.(rows := t.rows + back.value)]))
        else None
    decreases |rows|
  {
    hide RowReadAs, ValidRow;
    var t := db.tables[table];
    if rows == [] {
      assert t.rows + [] == t.rows && db.tables[table := t] == db.tables;
    } else {
      var first := RowReadAs(fp, rows[0]);
      if first.Ok? {
        FirstRowReplayed(fp, db, table, rows, first.value);
      }
    }
  }

  lemma ValidRowsCons(schema: seq<Column>, first: Row, rest: seq<Row>)
    ensures ValidRows(schema, [first] + rest) <==> ValidRow(schema, first) && ValidRows(schema, rest)
  {
    hide ValidRow;
    var rows := [first] + rest;
    assert rows[0] == first && forall i :: 0 <= i < |rest| ==> rows[i + 1] == rest[i];
  }

  lemma NoRowsAreValid(schema: seq<Column>)
    ensures ValidRows(schema, [])
  {
  }

  lemma FirstRowReplayed(fp: FloatText, db: Db, table: string, rows: seq<Row>, first: Row)
    requires table in db.tables && rows != [] && RowReadAs(fp, rows[0]) == Ok(first)
    ensures var t := db.tables[table];
      var back := RowsReadAs(fp, rows);
      ReplayedRows(fp, Some(db), table, rows) ==
        if back.Ok? && ValidRows(t.schema, back.value)
        then Some(db.(tables := db.tables[table := t.(rows := t.rows + back.value)]))
        else None
    decreases |rows|, 0
  {
    hide RowReadAs, ValidRows;
    var t := db.tables[table];
    var rest := RowsReadAs(fp, rows[1..]);
    ValidRowsCons(t.schema, first, []);
    assert [first] + [] == [first] && ValidRows(t.schema, []) by { NoRowsAreValid(t.schema); }
    var one := t.(rows := t.rows + [first]);
    var next := db.(tables := db.tables[table := one]);
    if ValidRow(t.schema, first) {
      ReplayedRowsAre(fp, next, table, rows[1..]);
      if rest.Ok? {
        assert t.rows + [first] + rest.value == t.rows + ([first] + rest.value);
        var all := t.(rows := t.rows + ([first] + rest.value));
        assert db.tables[table := one][table := all] == db.tables[table := all];
      }
    }
    if rest.Ok? {
      ValidRowsCons(t.schema, first, rest.value);
    }
  }

  lemma {:induction false} ReplayInserts(fp: FloatText, st: State, count: nat, table: string, rows: seq<Row>)
    requires ValidState(st) && st.replaying && IsName(table)
    requires forall i :: 0 <= i < |rows| ==> rows[i] != [] && ShapedRow(fp, rows[i])
    ensures Replay(fp, st, InsertRecords(fp, count, table, rows)).db == ReplayedRows(fp, st.db, table, rows)
    decreases |rows|
  {
    hide InsertSql, Parse, InsertReadAs, ShapedRow, IsName, ValidDb, StepUnlocked, DataEffect;
    if rows != [] {
      var r := WalRecord(count + 1, InsertOp, InsertSql(fp, table, rows[0]));
      var more := InsertRecords(fp, count + 1, table, rows[1..]);
      assert ([r] + more)[1..] == more;
      InsertReadsBack(fp, table, rows[0]);
      var read := InsertReadAs(fp, table, rows[0]);
      if read.Ok? {
        InsertReadIsInsert(fp, table, rows[0]);
        ReplayedStep(fp, st, read.value);
        StepKeepsValid(fp, st, read.value);
        var next := st.(db := DataEffect(st.db, read.value).db);
        ReplayInserts(fp, next, count + 1, table, rows[1..]);
        NoDatabaseNoInsert(st.db, read.value);
      }
    }
  }

  lemma InsertReadsBack(fp: FloatText, table: string, row: Row)
    requires IsName(table) && row != [] && ShapedRow(fp, row)
    ensures Parse(fp, InsertSql(fp, table, row)) == InsertReadAs(fp, table, row)
  {
    hide Parse, ShapedRow, InsertSql, InsertReadAs, IsName;
    var q := Insert(table, [row]);
    assert [row][0] == row;
    StatementReadsBack(fp, q);
  }

  lemma InsertReadIsInsert(fp: FloatText, table: string, row: Row)
    ensures InsertReadAs(fp, table, row).Ok? ==>
        Logged(InsertReadAs(fp, table, row).value) && InsertReadAs(fp, table, row).value.Insert?
  {
  }

  lemma NoDatabaseNoInsert(db: Option<Db>, q: Command)
    requires q.Insert?
    ensures DataEffect(db, q).outcome != Threw ==> DataEffect(db, q).db.Some?
  {
  }

  /** A restart after an INSERT of any number of rows inserts them as they read back, or abandons the database. */
  lemma InsertRestart(fp: FloatText, st: State, records: seq<WalRecord>, table: string, rows: seq<Row>)
    requires Consistent(fp, st, records) && IsName(table) && InsertEffect(st.db, table, rows).outcome == Done &&
        rows != []
    requires forall i :: 0 <= i < |rows| ==>
        rows[i] != [] && ShapedRow(fp, rows[i]) && |InsertSql(fp, table, rows[i])| < TWO_64
    requires |records| + |rows| + 2 < TWO_64
    ensures var next := DataStep(fp, st, Insert(table, rows)).0;
      var t := st.db.value.tables[table];
      var back := RowsReadAs(fp, rows);
      && next.db == InsertEffect(st.db, table, rows).db
      && Recover(fp, next.disk, next.wal.file).db ==
           if back.Ok? && ValidRows(t.schema, back.value)
           then Some(st.db.value.(tables := st.db.value.tables[table := t.(rows := t.rows + back.value)]))
           else None
  {
    hide InsertSql, EncodeAll, ReplayAll, Replay, Recover, AppendTo, ShapedRow, Pending, LoadFirst, ValidDb,
        InsertLoop, ReplayedRows, RowsReadAs, IsName, ValidRows;
    var more := InsertRecords(fp, |records|, table, rows);
    InsertLoopLogs(fp, st, records, table, rows);
    InsertRecordsFit(fp, |records|, table, rows);
    RecoverMore(fp, st, records, more);
    ReplayInserts(fp, Resumed(st, EncodeAll(records + more)), |records|, table, rows);
    ReplayedRowsAre(fp, st.db.value, table, rows);
  }

  /**
   An INSERT, of any number of rows, leaves a recoverable database exactly when every literal of every row reads back as
   itself. A double that prints without a point comes back as an integer, which its column refuses, and the restart ends
   with no database; one that prints rounded comes back as another number; one with an exponent does not come back.
   */
  lemma InsertRecoversExactly(fp: FloatText, st: State, records: seq<WalRecord>, table: string, rows: seq<Row>)
    requires Consistent(fp, st, records) && IsName(table) && InsertEffect(st.db, table, rows).outcome == Done &&
        rows != []
    requires forall i :: 0 <= i < |rows| ==>
        rows[i] != [] && ShapedRow(fp, rows[i]) && |InsertSql(fp, table, rows[i])| < TWO_64
    requires |records| + |rows| + 2 < TWO_64
    ensures Recovers(fp, DataStep(fp, st, Insert(table, rows)).0) <==>
        forall i :: 0 <= i < |rows| ==> PrintableRow(fp, rows[i])
  {
    hide InsertSql, Recover, PrintableRow, ShapedRow, Consistent, RowsReadAs, IsName, ValidRows, DataStep;
    InsertRestart(fp, st, records, table, rows);
    RowsReadThemselves(fp, rows);
    var t, back := st.db.value.tables[table], RowsReadAs(fp, rows);
    if back.Ok? {
      SameTableSameDb(st.db.value, table, t.(rows := t.rows + rows), t.(rows := t.rows + back.value));
      SameTail(t.rows, rows, back.value);
    }
  }

  lemma SameTail(head: seq<Row>, a: seq<Row>, b: seq<Row>)
    ensures head + a == head + b <==> a == b
  {
    assert (head + a)[|head|..] == a && (head + b)[|head|..] == b;
  }

  // ----- Literals the parser cannot read -----

  /** A double printed with an exponent, or as infinity or NaN. */
  predicate Unreadable(fp: FloatText, v: Value) {
    v.Dbl? && (Exponential(fp.format(v.bits)) || NotFinite(fp.format(v.bits)))
  }

  predicate UnreadableIn(fp: FloatText, p: Predicate) {
    match p
    case Comparison(_, _, value) => Unreadable(fp, value)
    case And(l, r) => UnreadableIn(fp, l) || UnreadableIn(fp, r)
    case Or(l, r) => UnreadableIn(fp, l) || UnreadableIn(fp, r)
  }

  predicate UnreadableRow(fp: FloatText, row: Row) {
    exists j :: 0 <= j < |row| && Unreadable(fp, row[j])
  }

  predicate HasUnreadable(fp: FloatText, q: Command) {
    match q
    case Insert(_, rows) => exists i :: 0 <= i < |rows| && UnreadableRow(fp, rows[i])
    case Update(_, _, value, where) => Unreadable(fp, value) || (where.Some? && UnreadableIn(fp, where.value))
    case Delete(_, where) => where.Some? && UnreadableIn(fp, where.value)
    case _ => false
  }

  lemma UnreadableReadsNot(fp: FloatText, v: Value)
    requires Unreadable(fp, v)
    ensures ReadAs(fp, v) == Err
  {
    ShapesDiffer(fp.format(v.bits));
  }

  lemma {:induction false} UnreadablePredicate(fp: FloatText, p: Predicate)
    requires UnreadableIn(fp, p)
    ensures PredicateReadAs(fp, p) == Err
  {
    hide Unreadable, ReadAs;
    if p.Comparison? {
      UnreadableReadsNot(fp, p.value);
    } else if UnreadableIn(fp, p.left) {
      UnreadablePredicate(fp, p.left);
    } else {
      UnreadablePredicate(fp, p.right);
    }
  }

  lemma {:induction false} UnreadableRowReadsNot(fp: FloatText, row: Row, j: nat)
    requires j < |row| && Unreadable(fp, row[j])
    ensures RowReadAs(fp, row) == Err
  {
    hide Unreadable, ReadAs;
    if j == 0 {
      UnreadableReadsNot(fp, row[0]);
    } else {
      UnreadableRowReadsNot(fp, row[1..], j - 1);
    }
  }

  lemma {:induction false} UnreadableRowsReadNot(fp: FloatText, rows: seq<Row>, i: nat)
    requires i < |rows| && UnreadableRow(fp, rows[i])
    ensures RowsReadAs(fp, rows) == Err
  {
    hide Unreadable, RowReadAs;
    if i == 0 {
      var j :| 0 <= j < |rows[0]| && Unreadable(fp, rows[0][j]);
      UnreadableRowReadsNot(fp, rows[0], j);
    } else {
      UnreadableRowsReadNot(fp, rows[1..], i - 1);
    }
  }

  lemma UnreadableStatement(fp: FloatText, q: Command)
    requires Logged(q) && !q.Insert? && HasUnreadable(fp, q)
    ensures ReadBack(fp, q) == Err
  {
    hide Unreadable, ReadAs, PredicateReadAs, UnreadableIn;
    if q.Update? && Unreadable(fp, q.value) {
      UnreadableReadsNot(fp, q.value);
    } else {
      UnreadablePredicate(fp, q.where.value);
    }
  }
}
