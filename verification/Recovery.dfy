/**
 Which statements keep the saved file and the log able to rebuild the live database: for every statement, in every state
 that has the invariant, exactly when.
 */
module Recovery {
  import opened Results
  import opened Values
  import opened Ast
  import opened Lexer
  import opened SqlText
  import opened Grammar
  import opened LiteralText
  import opened SqlRoundTrip
  import opened Relations
  import opened WalFormat
  import opened WriteAheadLogs
  import opened Snapshot
  import opened Transactions
  import opened Execution
  import opened Replays
  import opened Doubles

  // ----- Logged statements -----

  lemma CreateDatabaseConsistent(fp: FloatText, st: State, records: seq<WalRecord>, name: string)
    requires Consistent(fp, st, records) && IsName(name) && Short(name) && |records| + 2 < TWO_64
    ensures Consistent(fp, CreateDatabaseStep(st, name).0, records + [WalRecord(|records| + 1, CreateDatabaseOp, name)])
  {
    hide Parse, Holds, AppendTo, ReplayAll, IsName, Pending;
    NameHasNoSpace(name);
    EmptyDbIsValid(name);
    LoggedChange(fp, st, records, CreateDatabaseOp, name, Some(Db(name, map[])));
  }

  /** A statement whose text reads back with the same effect replays to its own effect. */
  lemma ReplayStatement(fp: FloatText, db: Option<Db>, q: Command, lsn: nat)
    requires Logged(q) && NamedCommand(q) && ShapedCommand(fp, q) && SameEffect(fp, db, q)
    ensures ReplayOne(fp, db, WalRecord(lsn, Operation(q), StatementText(fp, q))) == Ok(DataEffect(db, q).db)
  {
    hide Parse, DataEffect, StatementText, NamedCommand, ShapedCommand, ReadBack;
    StatementReadsBack(fp, q);
    ReadBackIsLogged(fp, q);
  }

  lemma LoggedStatement(fp: FloatText, st: State, records: seq<WalRecord>, q: Command)
    requires Consistent(fp, st, records) && Logged(q) && !q.Insert? && NamedCommand(q) && ShapedCommand(fp, q)
    requires DataEffect(st.db, q).logged && SameEffect(fp, st.db, q)
    requires Short(StatementText(fp, q)) && |records| + 2 < TWO_64
    ensures Consistent(fp, DataStep(fp, st, q).0,
        records + [WalRecord(|records| + 1, Operation(q), StatementText(fp, q))])
  {
    hide StatementText, DataEffect, AppendTo, Holds, ReplayAll, ReplayOne, ValidDb, NamedCommand, ShapedCommand,
        SameEffect, Pending;
    DataEffectKeepsValid(st.db, q);
    ReplayStatement(fp, st.db, q, |records| + 1);
    LoggedChange(fp, st, records, Operation(q), StatementText(fp, q), DataEffect(st.db, q).db);
  }

  lemma {:induction false} InsertConsistent(fp: FloatText, st: State, records: seq<WalRecord>, table: string,
      rows: seq<Row>)
    requires Consistent(fp, st, records) && IsName(table) && InsertEffect(st.db, table, rows).outcome == Done
    requires forall i :: 0 <= i < |rows| ==>
        rows[i] != [] && PrintableRow(fp, rows[i]) && Short(InsertSql(fp, table, rows[i]))
    requires |records| + |rows| + 2 < TWO_64
    ensures var result := InsertLoop(fp, st, table, rows);
      && result.1 == Done
      && Consistent(fp, result.0, records + InsertRecords(fp, |records|, table, rows))
      && result.0.db == (if rows == [] then st.db else InsertEffect(st.db, table, rows).db)
    decreases |rows|
  {
    hide PrintableRow, InsertSql, Consistent, InsertEffect, AppendTo, IsName;
    if rows == [] {
      assert records + [] == records;
    } else {
      var r := WalRecord(|records| + 1, InsertOp, InsertSql(fp, table, rows[0]));
      InsertOneByOne(st.db, table, rows);
      InsertFirst(fp, st, records, table, rows[0]);
      var logged := Log(st, InsertOp, InsertSql(fp, table, rows[0])).value;
      var next := logged.(db := InsertEffect(st.db, table, [rows[0]]).db);
      InsertConsistent(fp, next, records + [r], table, rows[1..]);
      Reassociate(records, r, InsertRecords(fp, |records| + 1, table, rows[1..]));
    }
  }

  lemma InsertFirst(fp: FloatText, st: State, records: seq<WalRecord>, table: string, row: Row)
    requires Consistent(fp, st, records) && IsName(table) && InsertEffect(st.db, table, [row]).outcome == Done
    requires row != [] && PrintableRow(fp, row) && Short(InsertSql(fp, table, row)) && |records| + 2 < TWO_64
    ensures Log(st, InsertOp, InsertSql(fp, table, row)).Ok?
    ensures Consistent(fp, Log(st, InsertOp,
        InsertSql(fp, table, row)).value.(db := InsertEffect(st.db, table, [row]).db),
                       records + [WalRecord(|records| + 1, InsertOp, InsertSql(fp, table, row))])
  {
    hide PrintableRow, InsertSql, Holds, ReplayAll, ReplayOne, AppendTo, IsName, ValidRow, Pending;
    var q := Insert(table, [row]);
    OneRowSurvives(fp, st.db, table, row);
    ReplayStatement(fp, st.db, q, |records| + 1);
    LoggedChange(fp, st, records, InsertOp, InsertSql(fp, table, row), InsertEffect(st.db, table, [row]).db);
  }

  lemma OneRowSurvives(fp: FloatText, db: Option<Db>, table: string, row: Row)
    requires PrintableRow(fp, row) && InsertEffect(db, table, [row]).outcome == Done
    ensures var q := Insert(table, [row]);
      LiteralsReread(fp, q) && ShapedCommand(fp, q) && SameEffect(fp, db, q)
  {
    hide PrintableRow, InsertEffect, ReadBack;
    ReadsBackExactly(fp, Insert(table, [row]));
  }

  lemma LoggedIsDone(db: Option<Db>, q: Command)
    requires IsData(q) && DataEffect(db, q).logged
    ensures DataEffect(db, q).outcome == Done
  {
  }

  // ----- Unlogged statements -----

  /** An UPDATE stopped by an exception after it had changed a row. */
  predicate HalfUpdated(db: Option<Db>, q: Command)
    requires q.Update?
  {
    HasTable(db, q.table) &&
    var t := db.value.tables[q.table];
    var target := ColumnIndex(t.schema, q.column);
    target.Some? &&
    var stop := UpdateStop(t.schema, t.rows, target.value, q.value, q.where, 0);
    stop < |t.rows| &&
    exists i ::
      && 0 <= i < stop && MatchesWhere(t.schema, t.rows[i], q.where) == Ok(true)
      && target.value < |t.rows[i]| && t.rows[i][target.value] != q.value
  }

  /** A DELETE stopped by an exception after it had erased a row. */
  predicate HalfDeleted(db: Option<Db>, q: Command)
    requires q.Delete?
  {
    HasTable(db, q.table) &&
    var t := db.value.tables[q.table];
    var stop := DeleteStop(t.schema, t.rows, q.where, |t.rows|);
    stop > 0 && exists i :: stop <= i < |t.rows| && MatchesWhere(t.schema, t.rows[i], q.where) == Ok(true)
  }

  predicate HalfWay(db: Option<Db>, q: Command) {
    (q.Update? && HalfUpdated(db, q)) || (q.Delete? && HalfDeleted(db, q))
  }

  lemma SameRowsSameDb(db: Db, table: string, rows: seq<Row>)
    requires table in db.tables
    ensures db.(tables := db.tables[table := db.tables[table].(rows := rows)]) == db <==> rows == db.tables[table].rows
  {
    var next := db.(tables := db.tables[table := db.tables[table].(rows := rows)]);
    if rows == db.tables[table].rows {
      assert next.tables == db.tables;
    } else {
      assert next.tables[table] != db.tables[table];
    }
  }

  lemma UnloggedUpdate(db: Db, q: Command)
    requires ValidDb(db) && q.Update? && !UpdateEffect(Some(db), q.table, q.column, q.value, q.where).logged
    ensures UpdateEffect(Some(db), q.table, q.column, q.value, q.where).db == Some(db) <==> !HalfUpdated(Some(db), q)
  {
    if q.table in db.tables {
      var t := db.tables[q.table];
      var target := ColumnIndex(t.schema, q.column);
      if target.Some? {
        hide MatchesWhere, UpdateFrom, UpdateStop, ValidRow, FitsColumn;
        var changed := UpdateFrom(t.schema, t.rows, target.value, q.value, q.where, 0);
        var stop := UpdateStop(t.schema, t.rows, target.value, q.value, q.where, 0);
        UpdateMeaning(t.schema, t.rows, target.value, q.value, q.where, 0);
        FailedUpdateHarmlessExactly(t.schema, t.rows, target.value, q.value, q.where);
        CountMatchingZero(t.schema, t.rows, q.where, 0, stop);
        SameRowsSameDb(db, q.table, changed.rows);
      }
    }
  }

  lemma UnloggedDelete(db: Db, q: Command)
    requires ValidDb(db) && q.Delete? && !DeleteEffect(Some(db), q.table, q.where).logged
    ensures DeleteEffect(Some(db), q.table, q.where).db == Some(db) <==> !HalfDeleted(Some(db), q)
  {
    if q.table in db.tables {
      hide MatchesWhere, DeleteFrom, DeleteStop, ValidRow;
      var t := db.tables[q.table];
      QuietDelete(t.schema, t.rows, q.where);
      FailedDeleteHarmlessExactly(t.schema, t.rows, q.where);
      SameRowsSameDb(db, q.table, DeleteFrom(t.schema, t.rows, q.where, |t.rows|).rows);
    }
  }

  /** A data statement that is not logged leaves the database alone, unless it threw half-way. */
  lemma UnloggedEffect(db: Option<Db>, q: Command)
    requires IsData(q) && NamedCommand(q) && !DataEffect(db, q).logged && (db.Some? ==> ValidDb(db.value))
    ensures DataEffect(db, q).db == db <==> !HalfWay(db, q)
  {
    if db.Some? {
      if q.Update? {
        UnloggedUpdate(db.value, q);
      } else if q.Delete? {
        UnloggedDelete(db.value, q);
      } else if q.RenameTable? {
        NameHasNoSpace(q.newName);
      }
    }
  }

  // ----- Every statement -----

  /** The database ROLLBACK would restore. */
  predicate CanRollback(st: State) {
    st.snapshot.Some? && st.active.Some? && IsActive(st.transactions, st.active.value)
  }

  /** The smallest saved name. */
  predicate IsFirst(disk: map<string, string>, first: string) {
    first in disk && forall n :: n in disk && n != first ==> StrLess(first, n)
  }

  /** A smaller name than the database's is saved, and the file with the smallest does not hold this very database. */
  predicate Hidden(disk: map<string, string>, db: Db) {
    exists first :: first in disk && IsFirst(disk, first) && StrLess(first, db.name) && DecodeDb(disk[first]) != Ok(db)
  }

  /**
   The statement changes the live database without a trace a restart would find: a ROLLBACK or LOAD that brings back
   something else than the live database, an UPDATE or DELETE that throws after changing a row, a SAVE behind another
   file.
   */
  predicate Drops(st: State, q: Command)
    requires ValidState(st)
  {
    match q
    case Rollback => CanRollback(st) && st.snapshot != st.db
    case LoadDatabase(source) => Loaded(st, source).Ok? && Some(Loaded(st, source).value) != st.db
    case SaveDatabase => st.db.Some? && Hidden(st.disk, st.db.value)
    case Update(_, _, _, _) => HalfWay(st.db, q)
    case Delete(_, _) => HalfWay(st.db, q)
    case _ => false
  }

  /** The texts the statement logs read back with the effect the statement had. */
  predicate Survives(fp: FloatText, db: Option<Db>, q: Command) {
    if q.Insert? then DataEffect(db, q).outcome == Done ==> forall i :: 0 <= i < |q.rows| ==>
        PrintableRow(fp, q.rows[i])
    else IsData(q) && DataEffect(db, q).logged ==> SameEffect(fp, db, q)
  }

  /** The statement's texts and sizes fit the 64-bit fields of log and snapshot, and its doubles print as doubles do. */
  predicate Expressible(fp: FloatText, st: State, records: seq<WalRecord>, q: Command) {
    && ShapedCommand(fp, q)
    && match q
       case CreateDatabase(name) => Short(name) && |records| + 2 < TWO_64
       case Insert(table, rows) =>
         |records| + |rows| + 2 < TWO_64 && forall i :: 0 <= i < |rows| ==> Short(InsertSql(fp, table, rows[i]))
       case SaveDatabase => |records| + 2 < TWO_64 && (st.db.Some? ==> Addressable(st.db.value))
       case _ => Logged(q) ==> Short(StatementText(fp, q)) && |records| + 2 < TWO_64
  }

  /** The log after the statement. */
  function StepRecords(fp: FloatText, st: State, records: seq<WalRecord>, q: Command): seq<WalRecord> {
    match q
    case CreateDatabase(name) => records + [WalRecord(|records| + 1, CreateDatabaseOp, name)]
    case Insert(table, rows) =>
      if DataEffect(st.db, q).outcome == Done then records + InsertRecords(fp, |records|, table, rows) else records
    case SaveDatabase => if st.db.Some? then [] else records
    case _ =>
      if Logged(q) && DataEffect(st.db, q).logged then records +
          [WalRecord(|records| + 1, Operation(q), StatementText(fp, q))]
      else records
  }

  /** A restart loads the file with the smallest name. */
  lemma FirstIsLoaded(disk: map<string, string>) returns (first: string)
    requires disk != map[]
    ensures IsFirst(disk, first) && LoadFirst(disk) == DecodeDb(disk[first])
  {
    hide DecodeDb, StrLess;
    var names := SortedNames(disk.Keys);
    first := names[0];
    assert first in names;
    forall n | n in disk && n != first ensures StrLess(first, n) {
      assert n in names;
    }
  }

  lemma FirstIsUnique(disk: map<string, string>, a: string, b: string)
    requires IsFirst(disk, a) && IsFirst(disk, b)
    ensures a == b
  {
    hide StrLess;
    StrOrder();
  }

  /** A published snapshot is the one a restart loads exactly when it is not hidden. */
  lemma HiddenIsNotLoaded(disk: map<string, string>, db: Db)
    requires ValidDb(db) && Addressable(db)
    ensures Hidden(disk, db) <==> LoadFirst(disk[db.name := EncodeDb(db)]) != Ok(db)
  {
    hide DecodeDb, EncodeDb, ValidDb, Addressable, LoadFirst, StrLess;
    var saved := disk[db.name := EncodeDb(db)];
    SnapshotRoundTrip(db);
    StrOrder();
    assert db.name in saved;
    var first := FirstIsLoaded(saved);
    if first != db.name {
      assert IsFirst(disk, first);
    }
    forall other | IsFirst(disk, other) && StrLess(other, db.name) ensures other == first {
      assert IsFirst(saved, other);
      FirstIsUnique(saved, first, other);
    }
  }

  /** Every saved file decodes to a database of its own name, as the files SAVE writes do. */
  predicate OwnNames(disk: map<string, string>) {
    forall n :: n in disk ==> DecodeDb(disk[n]).Ok? && DecodeDb(disk[n]).value.name == n
  }

  lemma PublishKeepsOwnNames(disk: map<string, string>, db: Db)
    requires OwnNames(disk) && ValidDb(db) && Addressable(db)
    ensures OwnNames(disk[db.name := EncodeDb(db)])
  {
    hide DecodeDb, EncodeDb, ValidDb, Addressable;
    SnapshotRoundTrip(db);
  }

  /** Among files under their own names, a saved database is hidden exactly when a smaller name is saved too. */
  lemma HiddenExactly(disk: map<string, string>, db: Db)
    requires OwnNames(disk)
    ensures Hidden(disk, db) <==> exists n :: n in disk && StrLess(n, db.name)
  {
    hide DecodeDb, LoadFirst, StrLess;
    if n :| n in disk && StrLess(n, db.name) {
      StrOrder();
      var first := FirstIsLoaded(disk);
      assert first == n || StrLess(first, n);
    }
  }

  lemma SaveStepIs(fp: FloatText, st: State, records: seq<WalRecord>)
    requires Consistent(fp, st, records) && |records| + 2 < TWO_64 && st.db.Some? && Short(st.db.value.name)
    ensures SaveStep(st).0 == st.(disk := st.disk[st.db.value.name := EncodeDb(st.db.value)], wal := EMPTY_WAL)
  {
    hide LoadFirst, EncodeDb, Log, ReplayAll, ValidDb, Holds, Pending;
    SaveLogged(fp, st, records);
  }

  /** SAVE leaves a recoverable database exactly when no file with a smaller name holds something else. */
  lemma SaveKeeps(fp: FloatText, st: State, records: seq<WalRecord>)
    requires Consistent(fp, st, records) && |records| + 2 < TWO_64 && st.db.Some? && Addressable(st.db.value)
    ensures !Hidden(st.disk, st.db.value) ==> Consistent(fp, SaveStep(st).0, [])
    ensures Recovers(fp, SaveStep(st).0) <==> !Hidden(st.disk, st.db.value)
  {
    hide LoadFirst, EncodeDb, ReplayOne, ValidDb, Holds, SaveStep, Recover, Log, Pending, Hidden, AddressableTable;
    SaveStepIs(fp, st, records);
    HiddenIsNotLoaded(st.disk, st.db.value);
    EmptyLog(fp, SaveStep(st).0);
  }

  /** So SAVE leaves a recoverable database exactly when no saved name is smaller than its own. */
  lemma SaveKeepsExactly(fp: FloatText, st: State, records: seq<WalRecord>)
    requires Consistent(fp, st, records) && |records| + 2 < TWO_64
    requires OwnNames(st.disk) && st.db.Some? && Addressable(st.db.value)
    ensures OwnNames(SaveStep(st).0.disk)
    ensures Recovers(fp, SaveStep(st).0) <==> forall n :: n in st.disk ==> !StrLess(n, st.db.value.name)
  {
    hide Consistent, OwnNames, Recovers, Hidden, SaveStep, AddressableTable, ValidDb, EncodeDb, StrLess;
    ConsistentIsValid(fp, st, records);
    SaveStepIs(fp, st, records);
    PublishKeepsOwnNames(st.disk, st.db.value);
    SaveKeeps(fp, st, records);
    HiddenExactly(st.disk, st.db.value);
  }

  /** With an empty log the saved file is all there is. */
  lemma EmptyLog(fp: FloatText, st: State)
    requires ValidState(st) && !st.replaying && st.wal == EMPTY_WAL
    ensures Base(st.disk) == st.db ==> Consistent(fp, st, [])
    ensures Recovers(fp, st) <==> Base(st.disk) == st.db
  {
    hide LoadFirst, ValidDb, Recover;
    ResetHolds();
    RecoverIsReplay(fp, st.disk, []);
  }

  lemma DataConsistent(fp: FloatText, st: State, records: seq<WalRecord>, q: Command)
    requires Consistent(fp, st, records) && IsData(q) && NamedCommand(q) && Expressible(fp, st, records, q)
    requires !Drops(st, q) && Survives(fp, st.db, q)
    ensures Consistent(fp, DataStep(fp, st, q).0, StepRecords(fp, st, records, q))
  {
    hide Consistent, StatementText, InsertLoop, HalfWay, NamedCommand, DataEffect, InsertSql, DataStep, StepRecords,
        SameEffect, ShapedCommand;
    if q.Insert? {
      InsertStatementConsistent(fp, st, records, q);
    } else if DataEffect(st.db, q).logged {
      LoggedStatement(fp, st, records, q);
      RecordsOfLogged(fp, st, records, q);
    } else {
      OnlyRowChangesStopHalfWay(st.db, q);
      UnloggedData(fp, st, records, q);
      RecordsOfLogged(fp, st, records, q);
    }
  }

  lemma OnlyRowChangesStopHalfWay(db: Option<Db>, q: Command)
    ensures HalfWay(db, q) ==> q.Update? || q.Delete?
  {
  }

  lemma RecordsOfLogged(fp: FloatText, st: State, records: seq<WalRecord>, q: Command)
    requires IsData(q) && !q.Insert?
    ensures StepRecords(fp, st, records, q) ==
      if DataEffect(st.db, q).logged then records +
          [WalRecord(|records| + 1, Operation(q), StatementText(fp, q))] else records
  {
    hide DataEffect, StatementText;
  }

  lemma InsertStatementConsistent(fp: FloatText, st: State, records: seq<WalRecord>, q: Command)
    requires Consistent(fp, st, records) && q.Insert? && NamedCommand(q) && Expressible(fp, st, records, q) &&
        Survives(fp, st.db, q)
    ensures Consistent(fp, DataStep(fp, st, q).0, StepRecords(fp, st, records, q))
  {
    hide Consistent, InsertLoop, InsertEffect, InsertSql, PrintableRow, ShapedRow;
    if InsertEffect(st.db, q.table, q.rows).outcome == Done {
      InsertConsistent(fp, st, records, q.table, q.rows);
    }
  }

  lemma UnloggedData(fp: FloatText, st: State, records: seq<WalRecord>, q: Command)
    requires Consistent(fp, st, records) && IsData(q) && !q.Insert? && NamedCommand(q) && !DataEffect(st.db, q).logged
    ensures DataStep(fp, st, q).0 == st.(db := DataEffect(st.db, q).db)
    ensures !HalfWay(st.db, q) ==> Consistent(fp, DataStep(fp, st, q).0, records)
    ensures Recovers(fp, DataStep(fp, st, q).0) <==> !HalfWay(st.db, q)
  {
    hide StatementText, HalfWay, DataEffect, NamedCommand, Recovers, ReplayAll;
    UnloggedEffect(st.db, q);
    DataEffectKeepsValid(st.db, q);
    UntouchedFiles(fp, st, records, st.(db := DataEffect(st.db, q).db));
  }

  lemma LoadedIsValid(st: State, source: Option<string>)
    requires ValidState(st)
    ensures ValidState(LoadStep(st, source).0)
  {
  }

  /** Statements other than data statements, CREATE DATABASE and SAVE touch neither file. */
  lemma ControlStep(fp: FloatText, st: State, records: seq<WalRecord>, q: Command)
    requires Consistent(fp, st, records) && !IsData(q) && !q.CreateDatabase? && !q.SaveDatabase?
    ensures !Drops(st, q) ==> Consistent(fp, StepUnlocked(fp, st, q).0, records)
    ensures Recovers(fp, StepUnlocked(fp, st, q).0) <==> !Drops(st, q)
  {
    hide Recovers, ReplayAll, DataStep, LoadFirst, LoadNamed, ValidDb;
    if q.LoadDatabase? {
      LoadedIsValid(st, q.source);
    }
    UntouchedFiles(fp, st, records, StepUnlocked(fp, st, q).0);
  }

  lemma CreateDatabaseKeeps(fp: FloatText, st: State, records: seq<WalRecord>, q: Command)
    requires Consistent(fp, st, records) && q.CreateDatabase? && NamedCommand(q) && Expressible(fp, st, records, q)
    ensures Consistent(fp, StepUnlocked(fp, st, q).0, StepRecords(fp, st, records, q)) &&
        Recovers(fp, StepUnlocked(fp, st, q).0)
  {
    hide Consistent, Recovers, CreateDatabaseStep, IsName;
    CreateDatabaseConsistent(fp, st, records, q.name);
    ConsistentRecovers(fp, CreateDatabaseStep(st, q.name).0, StepRecords(fp, st, records, q));
  }

  /** A statement whose text does not read back with its own effect is lost with the next restart. */
  lemma UnreadableDrops(fp: FloatText, st: State, records: seq<WalRecord>, q: Command)
    requires Consistent(fp, st, records) && IsData(q) && NamedCommand(q) && Expressible(fp, st, records, q) &&
        !Survives(fp, st.db, q)
    ensures !Recovers(fp, DataStep(fp, st, q).0)
  {
    hide Consistent, Recovers, DataStep, StatementText, InsertSql, SameEffect, ShapedRow, PrintableRow, DataEffect;
    if q.Insert? {
      InsertDone(st.db, q);
      InsertRecoversExactly(fp, st, records, q.table, q.rows);
    } else {
      LoggedRecoversExactly(fp, st, records, q);
    }
  }

  lemma InsertDone(db: Option<Db>, q: Command)
    requires q.Insert?
    ensures DataEffect(db, q) == InsertEffect(db, q.table, q.rows)
  {
  }

  /**
   One literal printed with an exponent, or as infinity or NaN, in an INSERT, UPDATE or DELETE that changed anything
   costs the whole database: the next restart has none.
   */
  lemma UnreadableNeverRecovers(fp: FloatText, st: State, records: seq<WalRecord>, q: Command)
    requires Consistent(fp, st, records) && IsData(q) && NamedCommand(q) && Expressible(fp, st, records, q)
    requires DataEffect(st.db, q).logged && HasUnreadable(fp, q)
    ensures var next := StepUnlocked(fp, st, q).0;
      !Recovers(fp, next) && Recover(fp, next.disk, next.wal.file).db == None
  {
    hide Consistent, Recover, DataStep, StatementText, InsertSql, ShapedRow, DataEffect, UnreadableRow, Unreadable,
        UnreadableIn, ValidRows, ShapedWhere, Shaped, IsName;
    ConsistentIsValid(fp, st, records);
    DataIsDataStep(fp, st, q);
    LoggedHasDatabase(st.db, q);
    LoggedIsDone(st.db, q);
    if q.Insert? {
      InsertDone(st.db, q);
      var i :| 0 <= i < |q.rows| && UnreadableRow(fp, q.rows[i]);
      UnreadableRowsReadNot(fp, q.rows, i);
      InsertRestart(fp, st, records, q.table, q.rows);
    } else {
      UnreadableStatement(fp, q);
      LoggedRestart(fp, st, records, q);
    }
  }

  lemma DataKeeps(fp: FloatText, st: State, records: seq<WalRecord>, q: Command)
    requires Consistent(fp, st, records) && IsData(q) && NamedCommand(q) && Expressible(fp, st, records, q)
    ensures !Drops(st, q) && Survives(fp, st.db, q) ==>
        Consistent(fp, StepUnlocked(fp, st, q).0, StepRecords(fp, st, records, q))
    ensures Recovers(fp, StepUnlocked(fp, st, q).0) <==> !Drops(st, q) && Survives(fp, st.db, q)
  {
    hide Consistent, Recovers, DataStep, NamedCommand, Expressible, Survives, StepRecords, Drops, StepUnlocked,
        ValidState;
    ConsistentIsValid(fp, st, records);
    DataIsDataStep(fp, st, q);
    if Drops(st, q) {
      HalfWayDrops(fp, st, records, q);
    } else if !Survives(fp, st.db, q) {
      UnreadableDrops(fp, st, records, q);
    } else {
      DataConsistent(fp, st, records, q);
      ConsistentRecovers(fp, DataStep(fp, st, q).0, StepRecords(fp, st, records, q));
    }
  }

  lemma DataIsDataStep(fp: FloatText, st: State, q: Command)
    requires ValidState(st) && IsData(q)
    ensures StepUnlocked(fp, st, q) == DataStep(fp, st, q)
  {
    hide DataStep;
  }

  lemma HalfWayDrops(fp: FloatText, st: State, records: seq<WalRecord>, q: Command)
    requires Consistent(fp, st, records) && IsData(q) && NamedCommand(q) && ValidState(st) && Drops(st, q)
    ensures !Recovers(fp, DataStep(fp, st, q).0)
  {
    hide Consistent, Recovers, DataStep, HalfUpdated, HalfDeleted, NamedCommand, DataEffect, StatementText;
    HalfWayIsUnlogged(st.db, q);
    UnloggedData(fp, st, records, q);
  }

  lemma HalfWayIsUnlogged(db: Option<Db>, q: Command)
    requires IsData(q) && HalfWay(db, q)
    ensures !DataEffect(db, q).logged
  {
    hide MatchesWhere, UpdateFrom, DeleteFrom, UpdateStop, DeleteStop;
    var t := db.value.tables[q.table];
    if q.Update? {
      UpdateMeaning(t.schema, t.rows, ColumnIndex(t.schema, q.column).value, q.value, q.where, 0);
    } else {
      QuietDelete(t.schema, t.rows, q.where);
    }
  }

  /**
   Every statement, in every state whose files rebuild it, leaves files that rebuild the live database exactly when it
   is not one of those that change it without a trace, and the text it logs reads back with its effect; and then the
   invariant itself is kept.
   */
  lemma StepKeepsRecovery(fp: FloatText, st: State, records: seq<WalRecord>, q: Command)
    requires Consistent(fp, st, records) && NamedCommand(q) && Expressible(fp, st, records, q)
    ensures !Drops(st, q) && Survives(fp, st.db, q) ==>
        Consistent(fp, StepUnlocked(fp, st, q).0, StepRecords(fp, st, records, q))
    ensures Recovers(fp, StepUnlocked(fp, st, q).0) <==> !Drops(st, q) && Survives(fp, st.db, q)
  {
    hide Consistent, Recovers, DataStep, SaveStep, CreateDatabaseStep, HalfWay, DataEffect, StatementText,
        NamedCommand, SameEffect, Hidden,
      ShapedCommand;
    if q.CreateDatabase? {
      CreateDatabaseKeeps(fp, st, records, q);
    } else if q.SaveDatabase? {
      if st.db.Some? {
        SaveKeeps(fp, st, records);
      } else {
        SaveNothing(fp, st, records);
      }
    } else if IsData(q) {
      DataKeeps(fp, st, records, q);
    } else {
      ControlStep(fp, st, records, q);
    }
  }

  lemma SaveNothing(fp: FloatText, st: State, records: seq<WalRecord>)
    requires Consistent(fp, st, records) && st.db.None?
    ensures SaveStep(st).0 == st && Recovers(fp, st)
  {
    hide ReplayAll, Recover, Holds, Pending;
    ConsistentRecovers(fp, st, records);
  }

  /** Statements whose literals read back survive. */
  lemma RereadingSurvives(fp: FloatText, db: Option<Db>, q: Command)
    requires LiteralsReread(fp, q)
    ensures Survives(fp, db, q) && ShapedCommand(fp, q)
  {
    hide PrintableRow, ShapedRow, DataEffect, ReadBack, PredicateRereads, Rereads, Shaped, ShapedPredicate;
    if q.Insert? {
      forall i | 0 <= i < |q.rows| ensures ShapedRow(fp, q.rows[i]) { RowReadsAsItself(fp, q.rows[i]); }
    } else if IsData(q) {
      ReadsBackExactly(fp, q);
      if DataEffect(db, q).logged { LoggedIsDone(db, q); }
    }
  }

  lemma RereadingReplays(fp: FloatText, db: Option<Db>, q: Command, lsn: nat)
    requires Logged(q) && NamedCommand(q) && LiteralsReread(fp, q) && DataEffect(db, q).outcome != Threw
    ensures ReplayOne(fp, db, WalRecord(lsn, Operation(q), StatementText(fp, q))) == Ok(DataEffect(db, q).db)
  {
    hide DataEffect, NamedCommand, LiteralsReread, ShapedCommand, ReadBack, StatementText, ReplayOne;
    ReadsBackExactly(fp, q);
    ReplayStatement(fp, db, q, lsn);
  }

  /**
   A multi-row INSERT with a row that does not fit, and an UPDATE with resolvable columns whose value does not fit a row
   it selects, throw and leave database, log and files as they were.
   */
  lemma InvalidWriteChangesNothing(fp: FloatText, st: State, q: Command)
    requires ValidState(st) && (q.Insert? || q.Update?) && HasTable(st.db, q.table)
    requires var t := st.db.value.tables[q.table];
      if q.Insert? then !ValidRows(t.schema, q.rows)
      else
        && WhereResolves(t.schema, q.where) && ColumnIndex(t.schema, q.column).Some?
        && !FitsColumn(t.schema[ColumnIndex(t.schema, q.column).value], q.value)
        && exists i :: 0 <= i < |t.rows| && Selected(t.schema, t.rows[i], q.where)
    ensures StepUnlocked(fp, st, q) == (st, Threw)
  {
    if q.Update? {
      hide UpdateFrom, StatementText, Selected, ValidRow, FitsColumn;
      var t := st.db.value.tables[q.table];
      UpdateIsSimultaneous(t.schema, t.rows, ColumnIndex(t.schema, q.column).value, q.value, q.where);
      SameRowsSameDb(st.db.value, q.table, t.rows);
    } else {
      hide InsertLoop, ValidRow;
    }
  }
}
