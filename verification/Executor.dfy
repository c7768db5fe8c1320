/**
 src/execution/query_executor.cpp as the object it is: a live database and a transaction snapshot that share nothing, a
 log, a transaction manager and the saved files. Every method refines the step the state machine takes.
 */
module Executor {
  import opened Results
  import opened Values
  import opened Ast
  import opened SqlText
  import opened Grammar
  import opened SqlRoundTrip
  import opened Parsing
  import opened Prepared
  import opened Relations
  import opened WalFormat
  import opened WriteAheadLogs
  import opened Snapshot
  import opened Transactions
  import opened Tables
  import opened Mvcc
  import opened Statements
  import opened Joins
  import opened Databases
  import Storage
  import opened Execution

  /** Objects reachable from a database that may be absent. */
  ghost function ReprOf(d: Database?): set<object>
    reads d
  {
    if d == null then {} else d.Repr
  }

  ghost predicate Intact(d: Database?)
    reads d, ReprOf(d)
  {
    d != null ==> d.Valid()
  }

  ghost function ViewOf(d: Database?): Option<Db>
    requires Intact(d)
    reads d, ReprOf(d)
  {
    if d == null then None else Some(d.View())
  }

  /** A statement on one table, in terms of the whole database. */
  lemma TableEffect(db: Db, q: Command)
    requires OnOneTable(q) && !q.Insert?
    ensures q.table !in db.tables ==> DataEffect(Some(db), q) == Effect(Some(db), Threw, false)
    ensures q.table in db.tables ==>
      var o := TableStep(db.tables[q.table], q);
      DataEffect(Some(db), q) == Effect(Some(db.(tables := db.tables[q.table := o.view])),
        if o.threw then Threw else if q.CreateIndex? && o.count == 0 then Failed else Done, !o.threw && o.count != 0)
  {
    hide UpdateFrom, DeleteFrom, ColumnIndex;
    if q.table in db.tables {
      var t := db.tables[q.table];
      assert db.tables[q.table := t] == db.tables;
      assert t.(rows := t.rows) == t;
    }
  }

  class QueryExecutor {
    const fp: FloatText
    var database: Database?
    var transactionSnapshot: Database?
    var activeTransaction: Option<nat>
    const transactionManager: TransactionManager
    var preparedStatements: map<string, string>
    const wal: WriteAheadLog
    var disk: map<string, string>
    var replayingWal: bool

    /** A database of this executor: sound, and apart from the executor's own parts. */
    ghost predicate Owns(d: Database?)
      reads this, d, ReprOf(d)
    {
      && Intact(d)
      && (d != null ==> d in d.Repr && this !in d.Repr && transactionManager !in d.Repr && wal !in d.Repr)
    }

    ghost predicate Valid()
      reads this, transactionManager, database, ReprOf(database), transactionSnapshot, ReprOf(transactionSnapshot)
    {
      && transactionManager.Valid()
      && Owns(database) && Owns(transactionSnapshot)
      && ReprOf(database) !! ReprOf(transactionSnapshot)
    }

    ghost function View(): State
      requires Valid()
      reads this, transactionManager, wal, database, ReprOf(database), transactionSnapshot, ReprOf(transactionSnapshot)
    {
      State(ViewOf(database), ViewOf(transactionSnapshot), activeTransaction, transactionManager.View(),
          preparedStatements,
            wal.View(), disk, replayingWal)
    }

    /** The objects of the live database and of the snapshot. */
    ghost function Held(): set<object>
      reads this, database, transactionSnapshot
    {
      ReprOf(database) + ReprOf(transactionSnapshot)
    }

    /** Opening the executor on the files an earlier process left recovers from them. */
    constructor (fp: FloatText, disk: map<string, string>, file: string)
      ensures Valid() && View() == Recover(fp, disk, file) && this.fp == fp
    {
      hide Recover, Database.Valid, Database.View;
      this.fp := fp;
      this.database := null;
      this.transactionSnapshot := null;
      this.activeTransaction := None;
      this.transactionManager := new TransactionManager();
      this.preparedStatements := map[];
      this.wal := new WriteAheadLog(file);
      this.disk := disk;
      this.replayingWal := false;
      new;
      RecoverFromStorage();
    }

    lemma ViewIsValid()
      requires Valid()
      ensures ValidState(View())
    {
      hide Database.Valid, Database.View, ValidDb;
      if database != null { database.ViewValidDb(); }
      if transactionSnapshot != null { transactionSnapshot.ViewValidDb(); }
    }

    /** `appendWal`: nothing is logged during replay. */
    method AppendWal(op: WalOperation, payload: string) returns (ok: bool)
      requires Valid()
      modifies wal
      ensures Valid() && ok == Log(old(View()), op, payload).Ok?
      ensures View() == if ok then Log(old(View()), op, payload).value else old(View())
    {
      hide Database.Valid, Database.View, AppendTo, FreshLsn;
      AppendIs(wal.View(), op, payload);
      if replayingWal {
        return true;
      }
      var lsn := wal.Append(op, payload);
      return lsn.Ok?;
    }

    // ----- Statements that change data -----

    /** The statement's effect on the live database, before any logging; the snapshot is out of its reach. */
    method ApplyData(q: Command) returns (outcome: Outcome, logged: bool)
      requires Valid() && IsData(q) && !q.Insert?
      modifies ReprOf(database)
      ensures Valid() && database == old(database)
      ensures var e := DataEffect(old(View()).db, q);
        View() == old(View()).(db := e.db) && outcome == e.outcome && logged == e.logged
      ensures fresh(ReprOf(database) - old(ReprOf(database)))
    {
      hide Database.Valid, Database.View, DataEffect;
      if database == null {
        NoDatabase(q);
        return if OnOneTable(q) then Threw else Failed, false;
      }
      outcome, logged := ChangeDatabase(database, q);
      database.ViewNames();
    }

    /** All rows are validated first; then each is logged and inserted. */
    method RunInsert(table: string, rows: seq<Row>) returns (outcome: Outcome)
      requires Valid()
      modifies ReprOf(database), wal
      ensures Valid() && database == old(database) && fresh(ReprOf(database) - old(ReprOf(database)))
      ensures (View(), outcome) == DataStep(fp, old(View()), Insert(table, rows))
    {
      hide Database.Valid, Database.View, InsertLoop, InsertSql, ValidRows;
      if database == null || table !in database.tables {
        if database != null { database.ViewNames(); }
        return Threw;
      }
      database.ViewNames();
      database.TableOf(table);
      var valid := database.tables[table].ValidateRows(rows);
      database.tables[table].ViewName();
      if !valid {
        return Threw;
      }
      outcome := InsertEach(table, rows);
    }

    method InsertEach(table: string, rows: seq<Row>) returns (outcome: Outcome)
      requires Valid() && database != null && table in database.tables
      modifies ReprOf(database), wal
      ensures Valid() && database == old(database) && fresh(ReprOf(database) - old(ReprOf(database)))
      ensures (View(), outcome) == InsertLoop(fp, old(View()), table, rows)
    {
      hide Database.Valid, Database.View, InsertLoop, InsertSql, InsertEffect, Log;
      assert rows[0..] == rows;
      for i := 0 to |rows|
        invariant Valid() && table in database.tables && fresh(ReprOf(database) - old(ReprOf(database)))
        invariant InsertLoop(fp, old(View()), table, rows) == InsertLoop(fp, View(), table, rows[i..])
      {
        InsertLoopNext(fp, View(), table, rows, i);
        var text := PrintInsert(fp, table, rows[i]);
        var logged := AppendWal(InsertOp, text);
        if !logged {
          return Threw;
        }
        InsertOne(table, rows[i]);
      }
      InsertLoopEnd(fp, View(), table, rows);
      return Done;
    }

    method InsertOne(table: string, row: Row)
      requires Valid() && database != null && table in database.tables
      modifies ReprOf(database)
      ensures Valid() && database == old(database) && table in database.tables &&
          fresh(ReprOf(database) - old(ReprOf(database)))
      ensures View() == old(View()).(db := InsertEffect(old(View()).db, table, [row]).db)
    {
      hide Database.Valid, Database.View, TableStep, InsertEffect;
      database.ViewNames();
      InsertEffectIs(database.View(), table, row);
      var _, _ := database.RunOn(table, Insert(table, [row]));
      database.ViewNames();
    }

    method RunData(q: Command) returns (outcome: Outcome)
      requires Valid() && IsData(q)
      modifies ReprOf(database), wal
      ensures Valid() && database == old(database) && fresh(ReprOf(database) - old(ReprOf(database)))
      ensures (View(), outcome) == DataStep(fp, old(View()), q)
    {
      hide Database.Valid, Database.View, DataEffect, InsertLoop, Log, StatementText;
      if q.Insert? {
        outcome := RunInsert(q.table, q.rows);
        return;
      }
      var logged;
      outcome, logged := ApplyData(q);
      if logged {
        var text := PrintStatement(fp, q);
        var ok := AppendWal(Operation(q), text);
        if !ok {
          outcome := Threw;
        }
      }
    }

    // ----- The other statements -----

    method RunCreateDatabase(name: string) returns (outcome: Outcome)
      requires Valid()
      modifies this, wal
      ensures fresh(Held() - old(Held()))
      ensures Valid() && (View(), outcome) == CreateDatabaseStep(old(View()), name)
    {
      hide Database.Valid, Database.View, Log;
      var logged := AppendWal(CreateDatabaseOp, name);
      if !logged || name == "" {
        return Threw;
      }
      LogKeeps(old(View()), CreateDatabaseOp, name);
      database := new Database(name);
      database.ViewNames();
      return Done;
    }

    /** The record, the file, and then the log is emptied. */
    method RunSave() returns (outcome: Outcome)
      requires Valid()
      modifies this, wal
      ensures fresh(Held() - old(Held()))
      ensures Valid() && ValidState(old(View())) && (View(), outcome) == SaveStep(old(View()))
    {
      hide Database.Valid, Database.View, Log, ValidState, EncodeDb, ValidDb;
      ViewIsValid();
      if database == null {
        return Failed;
      }
      database.ViewNames();
      LogKeeps(View(), SaveDatabaseOp, database.name);
      var logged := AppendWal(SaveDatabaseOp, database.name);
      if !logged {
        return Threw;
      }
      ViewIsValid();
      var bytes := Storage.SaveDatabase(database);
      disk := disk[database.name := bytes];
      wal.Reset();
      return Done;
    }

    /** The snapshot goes, but the active transaction stays set. */
    method RunLoad(source: Option<string>) returns (outcome: Outcome)
      requires Valid()
      modifies this
      ensures fresh(Held() - old(Held()))
      ensures Valid() && (View(), outcome) == LoadStep(old(View()), source)
    {
      hide Database.Valid, Database.View, Loaded, ValidDb;
      var loaded := ReadSource(source);
      if loaded.Err? {
        return Threw;
      }
      database := loaded.value;
      database.ViewNames();
      transactionSnapshot := null;
      return Done;
    }

    method ReadSource(source: Option<string>) returns (r: Result<Database>)
      requires Valid()
      ensures r.Ok? <==> Loaded(View(), source).Ok?
      ensures r.Ok? ==> r.value.Valid() && fresh(r.value.Repr) && r.value.View() == Loaded(View(), source).value
    {
      hide Database.Valid, Database.View, LoadNamed, LoadFirst, ValidDb;
      if source.Some? {
        r := ReadNamed(source.value);
      } else if database != null {
        database.ViewNames();
        r := ReadNamed(database.name);
      } else {
        r := ReadFirst();
      }
    }

    method ReadNamed(name: string) returns (r: Result<Database>)
      ensures r.Ok? <==> LoadNamed(disk, name).Ok?
      ensures r.Ok? ==> r.value.Valid() && fresh(r.value.Repr) && r.value.View() == LoadNamed(disk, name).value
    {
      hide Database.Valid, Database.View, DecodeDb, ValidDb;
      if name !in disk {
        return Err;
      }
      r := Storage.LoadDatabase(disk[name]);
    }

    method ReadFirst() returns (r: Result<Database>)
      ensures r.Ok? <==> LoadFirst(disk).Ok?
      ensures r.Ok? ==> r.value.Valid() && fresh(r.value.Repr) && r.value.View() == LoadFirst(disk).value
    {
      hide Database.Valid, Database.View, DecodeDb, ValidDb, SortedNames;
      if |disk| == 0 {
        return Err;
      }
      var names := SortedNames(disk.Keys);
      assert names[0] in names;
      r := Storage.LoadDatabase(disk[names[0]]);
    }

    /** The snapshot is a deep copy: no later statement on the live database can reach it. */
    method RunBegin() returns (outcome: Outcome)
      requires Valid()
      modifies this, transactionManager
      ensures fresh(Held() - old(Held()))
      ensures Valid() && (View(), outcome) == BeginStep(old(View()))
    {
      hide Database.Valid, Database.View, BeginIn, TransactionManager.Valid;
      if database == null || transactionSnapshot != null {
        return Failed;
      }
      var id := transactionManager.Begin();
      activeTransaction := Some(id);
      transactionSnapshot := database.Clone();
      transactionSnapshot.ViewNames();
      return Done;
    }

    method RunCommit() returns (outcome: Outcome)
      requires Valid()
      modifies this, transactionManager
      ensures fresh(Held() - old(Held()))
      ensures Valid() && (View(), outcome) == FinishStep(old(View()), Committed)
    {
      hide Database.Valid, Database.View, TransactionManager.Valid;
      if transactionSnapshot == null || activeTransaction.None? {
        return Failed;
      }
      var finished := transactionManager.Finish(activeTransaction.value, Committed);
      if finished.Err? {
        return Threw;
      }
      activeTransaction := None;
      transactionSnapshot := null;
      return Done;
    }

    method RunRollback() returns (outcome: Outcome)
      requires Valid()
      modifies this, transactionManager
      ensures fresh(Held() - old(Held()))
      ensures Valid() && (View(), outcome) == RollbackStep(old(View()))
    {
      hide Database.Valid, Database.View, TransactionManager.Valid;
      if transactionSnapshot == null || activeTransaction.None? {
        return Failed;
      }
      var finished := transactionManager.Finish(activeTransaction.value, RolledBack);
      if finished.Err? {
        return Threw;
      }
      activeTransaction := None;
      database := transactionSnapshot;
      transactionSnapshot := null;
      return Done;
    }

    // ----- Dispatch -----

    /** `executeUnlocked` takes exactly the state machine's step, and never touches the snapshot's objects. */
    method ExecuteUnlocked(q: Command) returns (outcome: Outcome)
      requires Valid()
      modifies this, transactionManager, wal, ReprOf(database)
      ensures fresh(Held() - old(Held()))
      ensures Valid() && ValidState(old(View())) && (View(), outcome) == StepUnlocked(fp, old(View()), q)
    {
      hide Database.Valid, Database.View, ValidState, DataStep, SaveStep, LoadStep, BeginStep, FinishStep,
          RollbackStep, CreateDatabaseStep;
      ViewIsValid();
      if q.CreateDatabase? {
        outcome := RunCreateDatabase(q.name);
      } else if q.SaveDatabase? {
        outcome := RunSave();
      } else if q.LoadDatabase? {
        outcome := RunLoad(q.source);
      } else if q.Begin? {
        outcome := RunBegin();
      } else if q.Commit? {
        outcome := RunCommit();
      } else if q.Rollback? {
        outcome := RunRollback();
      } else if IsData(q) {
        outcome := RunData(q);
      } else if q.Prepare? {
        preparedStatements := preparedStatements[q.name := q.sql];
        outcome := Done;
      } else {
        outcome := if q.Execute? then Threw else if q.ListTables? && database == null then Failed else Done;
      }
    }

    /** `execute`: a prepared statement is bound, parsed and executed in turn, `depth` calls deep at most. */
    method Execute(q: Command, depth: nat) returns (outcome: Outcome)
      requires Valid()
      modifies this, transactionManager, wal, ReprOf(database)
      ensures fresh(Held() - old(Held()))
      ensures Valid() && ValidState(old(View())) && (View(), outcome) == Step(fp, depth, old(View()), q)
      decreases depth
    {
      hide Database.Valid, Database.View, ValidState, StepUnlocked, Bind, Parse;
      ViewIsValid();
      if !q.Execute? {
        outcome := ExecuteUnlocked(q);
        return;
      }
      if depth == 0 {
        return Crashed;
      }
      if q.name !in preparedStatements {
        return Threw;
      }
      var sql := BindPrepared(fp, preparedStatements[q.name], q.parameters);
      if sql.Err? {
        return Threw;
      }
      var bound := ParseSql(fp, sql.value);
      if bound.Err? {
        return Threw;
      }
      outcome := Execute(bound.value, depth - 1);
    }

    // ----- Restart -----

    method RecoverFromStorage()
      requires Valid() && View() == Start(disk, wal.file)
      modifies this, transactionManager, wal
      ensures Valid() && View() == Recover(fp, old(disk), old(wal.file))
    {
      hide Database.Valid, Database.View, LoadFirst, ReadAll, Replay, ValidState, ValidDb;
      var loaded := ReadFirst();
      database := null;
      if loaded.Ok? {
        database := loaded.value;
        database.ViewNames();
      }
      ghost var st := View();
      RecoverIs(fp, disk, wal.file, st);
      RecoverFromWal(loaded.Ok?);
    }

    method RecoverFromWal(loadedSnapshot: bool)
      requires Valid()
      modifies this, transactionManager, wal, Held()
      ensures Valid() && ValidState(old(View())) && View() == RecoverLog(fp, old(View()), loadedSnapshot)
    {
      hide Database.Valid, Database.View, ReadAll, Replay, ValidState, AfterLastSave;
      ViewIsValid();
      var records := wal.ReadRecords();
      if records.Err? || records.value == [] {
        return;
      }
      var start := 0;
      if loadedSnapshot {
        start := FindStart(records.value);
      }
      replayingWal := true;
      ViewIsValid();
      ReplayRecords(records.value[start..]);
      replayingWal := false;
    }

    /** The replay loop; an exception abandons the database. */
    method ReplayRecords(records: seq<WalRecord>)
      requires Valid()
      modifies this, transactionManager, wal, Held()
      ensures Valid() && ValidState(old(View())) && View() == Replay(fp, old(View()), records)
    {
      hide Database.Valid, Database.View, Replay, ValidState, AfterRecord;
      ViewIsValid();
      assert records[0..] == records;
      for i := 0 to |records|
        invariant Valid() && fresh(Held() - old(Held())) && ValidState(View())
        invariant Replay(fp, old(View()), records) == Replay(fp, View(), records[i..])
      {
        ReplayNext(fp, View(), records, i);
        var stop := ReplayRecord(records[i]);
        if stop {
          return;
        }
        ViewIsValid();
      }
      ReplayEnd(fp, View(), records);
    }

    method ReplayRecord(record: WalRecord) returns (stop: bool)
      requires Valid()
      modifies this, transactionManager, wal, ReprOf(database)
      ensures fresh(Held() - old(Held()))
      ensures Valid() && ValidState(old(View())) && (View(), stop) == AfterRecord(fp, old(View()), record)
    {
      hide Database.Valid, Database.View, ValidState, AfterStatement;
      ViewIsValid();
      if record.operation == SaveDatabaseOp {
        return false;
      }
      if record.operation == CreateDatabaseOp && ' ' !in record.payload {
        stop := OpenDatabase(record.payload);
        return;
      }
      stop := ReplayStatement(record.payload);
    }

    /** A logged CREATE DATABASE holds the bare name. */
    method OpenDatabase(name: string) returns (stop: bool)
      requires Valid()
      modifies this
      ensures fresh(Held() - old(Held()))
      ensures Valid() && stop == (name == "") &&
          View() == old(View()).(db := if stop then None else Some(Db(name, map[])))
    {
      hide Database.Valid, Database.View;
      database := null;
      if name == "" {
        return true;
      }
      database := new Database(name);
      database.ViewNames();
      return false;
    }

    method ReplayStatement(sql: string) returns (stop: bool)
      requires Valid()
      modifies this, transactionManager, wal, ReprOf(database)
      ensures fresh(Held() - old(Held()))
      ensures Valid() && ValidState(old(View())) && (View(), stop) == AfterStatement(fp, old(View()), sql)
    {
      hide Database.Valid, Database.View, ValidState, StepUnlocked, Parse;
      ViewIsValid();
      var q := ParseSql(fp, sql);
      if q.Err? {
        Abandon();
        return true;
      }
      var outcome := ExecuteUnlocked(q.value);
      if outcome == Threw {
        Abandon();
        return true;
      }
      return false;
    }

    method Abandon()
      requires Valid()
      modifies this
      ensures Valid() && View() == old(View()).(db := None) && Held() <= old(Held())
    {
      hide Database.Valid, Database.View;
      database := null;
    }

    // ----- Reading -----

    /** The object that holds a table of the live database. */
    ghost function TableNamed(name: string): (t: Table)
      requires Valid() && HasTable(View().db, name)
      reads this, transactionManager, wal, database, ReprOf(database), transactionSnapshot, ReprOf(transactionSnapshot)
      ensures database != null && name in database.tables && t == database.tables[name] && t in database.Repr
      ensures t.rowStore in database.Repr && t.Valid() && t.View() == View().db.value.tables[name]
      ensures IsHistory(t.history) && IndexesResolve(t.schema, t.indexColumns)
    {
      hide Database.Valid, Database.View, Table.Valid, Table.View, IsHistory, IndexesResolve;
      database.ViewNames();
      database.TableOf(name);
      database.tables[name].ViewValid();
      database.tables[name].ValidHistory();
      database.tables[name]
    }

    /**
     SELECT without join. Outside a transaction the answer is that of the current rows; inside one too, for a table that
     shows its current rows to the reader of the largest version, as a table without deletes does.
     */
    method Select(table: string, selected: seq<string>, where: Option<Predicate>, orderBy: Option<OrderBy>,
        limit: Option<nat>, sort: Sorter)
        returns (r: Result<Answer>)
      requires Valid()
      ensures !HasTable(View().db, table) ==> r == Err
      ensures HasTable(View().db, table) ==>
        var t := TableNamed(table);
        && Selects(t.schema, Collected(t, where, Reader(activeTransaction)), selected, orderBy, limit, sort, r)
        && (ShowsCurrent(t, where, activeTransaction.Some?) ==>
              SelectAnswers(View().db.value.tables[table], selected, where, orderBy, limit, sort, r))
    {
      hide Database.Valid, Database.View, Collected, Table.Valid, Table.View, IndexesResolve, IsHistory, SelectAnswers,
          Selects,
          SeesCurrent, DeleteFree;
      if database == null {
        return Err;
      }
      database.ViewNames();
      if table !in database.tables {
        return Err;
      }
      var t := database.tables[table];
      assert t == TableNamed(table);
      r := SelectFrom(t, selected, where, orderBy, limit, sort, Reader(activeTransaction));
      if ShowsCurrent(t, where, activeTransaction.Some?) {
        ShownIsSeen(t, where, activeTransaction);
      }
    }

    /** SELECT with a join; the rows are current under the same conditions, on both tables. */
    method SelectJoined(table: string, join: JoinClause, selected: seq<string>, where: Option<Predicate>,
        orderBy: Option<OrderBy>, limit: Option<nat>, sort: Sorter)
      returns (r: Result<Answer>)
      requires Valid()
      ensures !HasTable(View().db, table) || !HasTable(View().db, join.table) ==> r == Err
      ensures HasTable(View().db, table) && HasTable(View().db, join.table) ==>
        var left, right := TableNamed(table), TableNamed(join.table);
        var reader, inside := Reader(activeTransaction), activeTransaction.Some?;
        && JoinAnswers(left.View().(rows := ScanView(left, reader)), right.View().(rows := ScanView(right, reader)),
             join, selected, where, orderBy, limit, sort, r)
        && (ShowsCurrent(left, None, inside) && ShowsCurrent(right, None, inside) ==>
              JoinAnswers(View().db.value.tables[table], View().db.value.tables[join.table], join, selected, where,
                orderBy, limit, sort, r))
    {
      hide Database.Valid, Database.View, JoinAnswers, ScanView, Table.Valid, Table.View, IsHistory, SeesCurrent,
          DeleteFree, IndexesResolve;
      if database == null {
        return Err;
      }
      database.ViewNames();
      if table !in database.tables || join.table !in database.tables {
        return Err;
      }
      var left, right := database.tables[table], database.tables[join.table];
      assert left == TableNamed(table) && right == TableNamed(join.table);
      r := JoinTables(left, right, join, selected, where, orderBy, limit, sort, Reader(activeTransaction));
      if ShowsCurrent(left, None, activeTransaction.Some?) && ShowsCurrent(right, None, activeTransaction.Some?) {
        ShownIsSeen(left, None, activeTransaction);
        ShownIsSeen(right, None, activeTransaction);
      }
    }
  }

  /** `readVersion`: the largest version inside a transaction, the row store outside. */
  function Reader(activeTransaction: Option<nat>): Option<nat> {
    if activeTransaction.Some? then Some(TWO_64 - 1) else None
  }

  /**
   The table's current rows are what a SELECT reads: there is no transaction, or the table has seen no delete and fewer
   than 2^64 changes, or its chains show the current rows to the largest version there is.
   */
  ghost predicate ShowsCurrent(table: Table, where: Option<Predicate>, inTransaction: bool)
    reads table, table.rowStore
  {
    !inTransaction
    || (DeleteFree(table.history) && |table.history| < 0x1_0000_0000_0000_0000)
    || SeesCurrent(table, where, Some(0xFFFF_FFFF_FFFF_FFFF))
  }

  lemma ShownIsSeen(table: Table, where: Option<Predicate>, activeTransaction: Option<nat>)
    requires table.Valid() && IsHistory(table.history) && ShowsCurrent(table, where, activeTransaction.Some?)
    ensures SeesCurrent(table, where, Reader(activeTransaction))
  {
    hide Table.Valid, SeesCurrent, DeleteFree;
    if activeTransaction.None? {
      OutsideSees(table, where);
    } else if DeleteFree(table.history) && |table.history| < TWO_64 {
      DeleteFreeSees(table, where, Reader(activeTransaction));
    }
  }

  /** Position after the last save record, found by scanning forward. */
  method FindStart(records: seq<WalRecord>) returns (start: nat)
    ensures start == AfterLastSave(records)
  {
    start := 0;
    for i := 0 to |records|
      invariant start == AfterLastSave(records[..i])
    {
      assert records[..i + 1][..i] == records[..i];
      if records[i].operation == SaveDatabaseOp {
        start := i + 1;
      }
    }
    assert records[..|records|] == records;
  }

  /** Recovery once the snapshot file has been read or found missing. */
  ghost function RecoverLog(fp: FloatText, st: State, loadedSnapshot: bool): State
    requires ValidState(st)
  {
    var records := ReadAll(st.wal.file);
    if records.Err? || records.value == [] then st
    else
      var start := if loadedSnapshot then AfterLastSave(records.value) else 0;
      Replay(fp, st.(replaying := true), records.value[start..]).(replaying := false)
  }

  lemma RecoverIs(fp: FloatText, disk: map<string, string>, file: string, st: State)
    requires var loaded := LoadFirst(disk);
      st == Start(disk, file).(db := if loaded.Ok? then Some(loaded.value) else None)
    ensures ValidState(st) && Recover(fp, disk, file) == RecoverLog(fp, st, LoadFirst(disk).Ok?)
  {
    hide LoadFirst, ReadAll, Replay, ValidDb;
  }

  /** The state after replaying one record, and whether an exception ended the replay. */
  ghost function AfterRecord(fp: FloatText, st: State, r: WalRecord): (next: (State, bool))
    requires ValidState(st)
    ensures ValidState(next.0)
  {
    if r.operation == SaveDatabaseOp then (st, false)
    else if r.operation == CreateDatabaseOp && ' ' !in r.payload then
      if r.payload == "" then (st.(db := None), true) else (st.(db := Some(Db(r.payload, map[]))), false)
    else AfterStatement(fp, st, r.payload)
  }

  ghost function AfterStatement(fp: FloatText, st: State, sql: string): (next: (State, bool))
    requires ValidState(st)
    ensures ValidState(next.0)
  {
    var q := Parse(fp, sql);
    if q.Err? then (st.(db := None), true)
    else
      StepKeepsValid(fp, st, q.value);
      var step := StepUnlocked(fp, st, q.value);
      if step.1 == Threw then (step.0.(db := None), true) else (step.0, false)
  }

  lemma ReplayNext(fp: FloatText, st: State, records: seq<WalRecord>, i: nat)
    requires ValidState(st) && i < |records|
    ensures var next := AfterRecord(fp, st, records[i]);
      Replay(fp, st, records[i..]) == if next.1 then next.0 else Replay(fp, next.0, records[i + 1..])
  {
    hide StepUnlocked, Parse, ValidState;
    assert records[i..][1..] == records[i + 1..];
  }

  lemma ReplayEnd(fp: FloatText, st: State, records: seq<WalRecord>)
    requires ValidState(st)
    ensures Replay(fp, st, records[|records|..]) == st
  {
  }

  lemma LogKeeps(st: State, op: WalOperation, payload: string)
    ensures Log(st, op, payload).Ok? ==> Log(st, op, payload).value == st.(wal := Log(st, op, payload).value.wal)
  {
  }

  lemma InsertEffectIs(db: Db, table: string, row: Row)
    requires table in db.tables
    ensures InsertEffect(Some(db), table, [row]).db ==
      Some(db.(tables := db.tables[table := TableStep(db.tables[table], Insert(table, [row])).view]))
  {
    assert db.tables[table := db.tables[table]] == db.tables;
  }

  lemma InsertLoopNext(fp: FloatText, st: State, table: string, rows: seq<Row>, i: nat)
    requires i < |rows|
    ensures InsertLoop(fp, st, table, rows[i..]) ==
      var logged := Log(st, InsertOp, InsertSql(fp, table, rows[i]));
      if logged.Err? then (st, Threw)
      else InsertLoop(fp, logged.value.(db := InsertEffect(st.db, table, [rows[i]]).db), table, rows[i + 1..])
  {
    assert rows[i..][1..] == rows[i + 1..];
  }

  lemma InsertLoopEnd(fp: FloatText, st: State, table: string, rows: seq<Row>)
    ensures InsertLoop(fp, st, table, rows[|rows|..]) == (st, Done)
  {
  }

  method ChangeDatabase(db: Database, q: Command) returns (outcome: Outcome, logged: bool)
    requires db.Valid() && IsData(q) && !q.Insert?
    modifies db.Repr
    ensures db.Valid() && fresh(db.Repr - old(db.Repr))
    ensures Effect(Some(db.View()), outcome, logged) == DataEffect(Some(old(db.View())), q)
  {
    hide Database.Valid, Database.View, TableStep, DataEffect, CreateTableIn, DropTableIn, RenameTableIn;
    db.ViewNames();
    if q.CreateTable? {
      CreateTableIs(db.View(), q.name, q.columns);
      var created := db.CreateTable(q.name, q.columns);
      outcome, logged := if created.Err? then Threw else if created.value then Done else Failed, created == Ok(true);
    } else if q.DropTable? {
      DropTableIs(db.View(), q.name);
      var dropped := db.DropTable(q.name);
      outcome, logged := if dropped then Done else Failed, dropped;
    } else if q.RenameTable? {
      RenameTableIs(db.View(), q.oldName, q.newName);
      var renamed := db.RenameTable(q.oldName, q.newName);
      outcome, logged := if renamed.Err? then Threw else if renamed.value then Done else Failed, renamed == Ok(true);
    } else {
      TableEffect(db.View(), q);
      if q.table !in db.tables {
        return Threw, false;
      }
      var threw, count := db.RunOn(q.table, q);
      outcome, logged := if threw then Threw else if q.CreateIndex? && count == 0 then Failed else Done, !threw &&
          count != 0;
    }
  }

  lemma NoDatabase(q: Command)
    requires IsData(q)
    ensures DataEffect(None, q) == Effect(None, if OnOneTable(q) then Threw else Failed, false)
  {
  }

  lemma CreateTableIs(db: Db, name: string, columns: seq<Column>)
    ensures var created := CreateTableIn(db, name, columns);
      && (created.Ok? && !created.value.1 ==> created.value.0 == db)
      && DataEffect(Some(db), CreateTable(name, columns)) ==
          (if created.Err? then Effect(Some(db), Threw, false)
           else Effect(Some(created.value.0), if created.value.1 then Done else Failed, created.value.1))
  {
  }

  lemma DropTableIs(db: Db, name: string)
    ensures var dropped := DropTableIn(db, name);
      && (!dropped.1 ==> dropped.0 == db)
      && DataEffect(Some(db), DropTable(name)) == Effect(Some(dropped.0), if dropped.1 then Done else Failed, dropped.1)
  {
  }

  lemma RenameTableIs(db: Db, oldName: string, newName: string)
    ensures var taken := oldName !in db.tables || newName in db.tables;
      DataEffect(Some(db), RenameTable(oldName, newName)) ==
        if newName == "" && !taken then Effect(Some(DropTableIn(db, oldName).0), Threw, false)
        else Effect(Some(RenameTableIn(db, oldName, newName).0), if taken then Failed else Done, !taken)
  {
  }

  lemma AppendIs(w: Wal, op: WalOperation, payload: string)
    ensures AppendTo(w, op, payload).Ok? <==> FreshLsn(w).Ok?
  {
  }
}
