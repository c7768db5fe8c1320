/**
 The executor of src/execution/query_executor.cpp as a state machine: what a statement does to the live database,
 the transaction, the log and the saved file, and what a restart rebuilds from the last two.
 */
module Execution {
  import opened Results
  import opened Values
  import opened Ast
  import opened SqlText
  import opened Grammar
  import opened SqlRoundTrip
  import opened Prepared
  import opened Relations
  import opened WalFormat
  import opened WriteAheadLogs
  import opened Snapshot
  import opened Transactions

  /** Returned with success, returned with `success == false`, threw, or ran out of stack and took the process down. */
  datatype Outcome = Done | Failed | Threw | Crashed

  datatype State = State(
    db: Option<Db>,
    snapshot: Option<Db>,
    active: Option<nat>,
    transactions: Manager,
    prepared: map<string, string>,
    wal: Wal,
    disk: map<string, string>,
    replaying: bool)

  predicate ValidState(st: State) {
    && (st.db.Some? ==> ValidDb(st.db.value))
    && (st.snapshot.Some? ==> ValidDb(st.snapshot.value))
  }

  // ----- Statements that change data -----

  /** What a data statement does to the database, how it returns, and whether it is worth a log record. */
  datatype Effect = Effect(db: Option<Db>, outcome: Outcome, logged: bool)

  predicate HasTable(db: Option<Db>, table: string) {
    db.Some? && table in db.value.tables
  }

  function InsertEffect(db: Option<Db>, table: string, rows: seq<Row>): (e: Effect)
    ensures e.db.Some? && db.Some? && ValidDb(db.value) ==> ValidDb(e.db.value)
  {
    if !HasTable(db, table) then Effect(db, Threw, false)
    else
      var t := db.value.tables[table];
      if !ValidRows(t.schema, rows) then Effect(db, Threw, false)
      else Effect(Some(db.value.(tables := db.value.tables[table := t.(rows := t.rows + rows)])), Done, true)
  }

  function ChangedEffect(db: Db, table: string, changed: Changed): Effect
    requires table in db.tables
  {
    var t := db.tables[table];
    Effect(Some(db.(tables := db.tables[table := t.(rows := changed.rows)])),
           if changed.threw then Threw else Done, !changed.threw && changed.count != 0)
  }

  function UpdateEffect(db: Option<Db>, table: string, column: string, value: Value, where: Option<Predicate>): Effect {
    if !HasTable(db, table) then Effect(db, Threw, false)
    else
      var t := db.value.tables[table];
      var target := ColumnIndex(t.schema, column);
      if target.None? then Effect(db, Threw, false)
      else ChangedEffect(db.value, table, UpdateFrom(t.schema, t.rows, target.value, value, where, 0))
  }

  function DeleteEffect(db: Option<Db>, table: string, where: Option<Predicate>): Effect {
    if !HasTable(db, table) then Effect(db, Threw, false)
    else
      var t := db.value.tables[table];
      ChangedEffect(db.value, table, DeleteFrom(t.schema, t.rows, where, |t.rows|))
  }

  function CreateIndexEffect(db: Option<Db>, name: string, table: string, column: string): Effect {
    if !HasTable(db, table) then Effect(db, Threw, false)
    else
      var created := CreateIndexOn(db.value.tables[table], name, column);
      if created.1 then Effect(Some(db.value.(tables := db.value.tables[table := created.0])), Done, true)
      else Effect(db, Failed, false)
  }

  function CreateTableEffect(db: Option<Db>, name: string, columns: seq<Column>): Effect {
    if db.None? then Effect(db, Failed, false)
    else
      var created := CreateTableIn(db.value, name, columns);
      if created.Err? then Effect(db, Threw, false)
      else if created.value.1 then Effect(Some(created.value.0), Done, true)
      else Effect(db, Failed, false)
  }

  function DropTableEffect(db: Option<Db>, name: string): Effect {
    if db.None? then Effect(db, Failed, false)
    else
      var dropped := DropTableIn(db.value, name);
      if dropped.1 then Effect(Some(dropped.0), Done, true) else Effect(db, Failed, false)
  }

  /** Renaming to the empty name throws after the old table was taken out of the map. */
  function RenameTableEffect(db: Option<Db>, oldName: string, newName: string): Effect {
    if db.None? then Effect(db, Failed, false)
    else if newName == "" && oldName in db.value.tables && newName !in db.value.tables then
      Effect(Some(DropTableIn(db.value, oldName).0), Threw, false)
    else
      var renamed := RenameTableIn(db.value, oldName, newName);
      if renamed.1 then Effect(Some(renamed.0), Done, true) else Effect(db, Failed, false)
  }

  predicate IsData(q: Command) {
    q.CreateTable? || q.DropTable? || q.RenameTable? || q.Insert? || q.Update? || q.Delete? || q.CreateIndex?
  }

  function DataEffect(db: Option<Db>, q: Command): Effect
    requires IsData(q)
  {
    match q
    case CreateTable(name, columns) => CreateTableEffect(db, name, columns)
    case DropTable(name) => DropTableEffect(db, name)
    case RenameTable(oldName, newName) => RenameTableEffect(db, oldName, newName)
    case Insert(table, rows) => InsertEffect(db, table, rows)
    case Update(table, column, value, where) => UpdateEffect(db, table, column, value, where)
    case Delete(table, where) => DeleteEffect(db, table, where)
    case CreateIndex(name, table, column) => CreateIndexEffect(db, name, table, column)
  }

  function Operation(q: Command): WalOperation
    requires IsData(q)
  {
    match q
    case CreateTable(_, _) => CreateTableOp
    case DropTable(_) => DropTableOp
    case RenameTable(_, _) => RenameTableOp
    case Insert(_, _) => InsertOp
    case Update(_, _, _, _) => UpdateOp
    case Delete(_, _) => DeleteOp
    case CreateIndex(_, _, _) => CreateIndexOp
  }

  /** `appendWal`: nothing is logged while the log is being replayed. */
  function Log(st: State, op: WalOperation, payload: string): Result<State> {
    if st.replaying then Ok(st)
    else
      var wal :- AppendTo(st.wal, op, payload);
      Ok(st.(wal := wal))
  }

  /** The insert loop: each row is logged and then inserted. */
  function InsertLoop(fp: FloatText, st: State, table: string, rows: seq<Row>): (State, Outcome)
    decreases |rows|
  {
    if rows == [] then (st, Done)
    else
      var logged := Log(st, InsertOp, InsertSql(fp, table, rows[0]));
      if logged.Err? then (st, Threw)
      else InsertLoop(fp, logged.value.(db := InsertEffect(st.db, table, [rows[0]]).db), table, rows[1..])
  }

  function DataStep(fp: FloatText, st: State, q: Command): (State, Outcome)
    requires IsData(q)
  {
    var e := DataEffect(st.db, q);
    if q.Insert? then
      if e.outcome == Done then InsertLoop(fp, st, q.table, q.rows) else (st, Threw)
    else
      var changed := st.(db := e.db);
      if !e.logged then (changed, e.outcome)
      else
        var logged := Log(changed, Operation(q), StatementText(fp, q));
        if logged.Ok? then (logged.value, e.outcome) else (changed, Threw)
  }

  // ----- The other statements -----

  function CreateDatabaseStep(st: State, name: string): (State, Outcome) {
    var logged := Log(st, CreateDatabaseOp, name);
    if logged.Err? then (st, Threw)
    else if name == "" then (logged.value, Threw)
    else (logged.value.(db := Some(Db(name, map[]))), Done)
  }

  /** The record, then the file, then the log is emptied. */
  function SaveStep(st: State): (State, Outcome)
    requires ValidState(st)
  {
    if st.db.None? then (st, Failed)
    else
      var logged := Log(st, SaveDatabaseOp, st.db.value.name);
      if logged.Err? then (st, Threw)
      else (Publish(logged.value).(wal := EMPTY_WAL), Done)
  }

  /** `StorageManager::saveDatabase`, published atomically under the database's name. */
  function Publish(st: State): State
    requires ValidState(st) && st.db.Some?
  {
    st.(disk := st.disk[st.db.value.name := EncodeDb(st.db.value)])
  }

  function LoadNamed(disk: map<string, string>, name: string): (r: Result<Db>)
    ensures r.Ok? ==> ValidDb(r.value)
  {
    if name in disk then DecodeDb(disk[name]) else Err
  }

  /** The first file in the directory; the order is unspecified, and taken to be by name. */
  function LoadFirst(disk: map<string, string>): (r: Result<Db>)
    ensures r.Ok? ==> ValidDb(r.value)
  {
    if |disk| == 0 then Err
    else
      var names := SortedNames(disk.Keys);
      assert names[0] in names;
      DecodeDb(disk[names[0]])
  }

  function Loaded(st: State, source: Option<string>): (r: Result<Db>)
    ensures r.Ok? ==> ValidDb(r.value)
  {
    if source.Some? then LoadNamed(st.disk, source.value)
    else if st.db.Some? then LoadNamed(st.disk, st.db.value.name)
    else LoadFirst(st.disk)
  }

  /** The transaction's snapshot is dropped, but the active transaction stays set. */
  function LoadStep(st: State, source: Option<string>): (State, Outcome) {
    var db := Loaded(st, source);
    if db.Err? then (st, Threw) else (st.(db := Some(db.value), snapshot := None), Done)
  }

  function BeginStep(st: State): (State, Outcome) {
    if st.db.None? || st.snapshot.Some? then (st, Failed)
    else
      var begun := BeginIn(st.transactions);
      (st.(active := Some(begun.1), transactions := begun.0, snapshot := st.db), Done)
  }

  function FinishStep(st: State, outcome: TransactionState): (State, Outcome) {
    if st.snapshot.None? then (st, Failed)
    else if st.active.None? then (st, Failed)
    else
      var finished := FinishIn(st.transactions, st.active.value, outcome);
      if finished.Err? then (st, Threw)
      else (st.(transactions := finished.value, active := None, snapshot := None), Done)
  }

  function RollbackStep(st: State): (State, Outcome) {
    var finished := FinishStep(st, RolledBack);
    if finished.1 == Done then (finished.0.(db := st.snapshot), Done) else finished
  }

  /** `executeUnlocked`. Queries leave the state alone; a prepared statement must not arrive here. */
  function StepUnlocked(fp: FloatText, st: State, q: Command): (State, Outcome)
    requires ValidState(st)
  {
    match q
    case CreateDatabase(name) => CreateDatabaseStep(st, name)
    case SaveDatabase => SaveStep(st)
    case LoadDatabase(source) => LoadStep(st, source)
    case Begin => BeginStep(st)
    case Commit => FinishStep(st, Committed)
    case Rollback => RollbackStep(st)
    case Prepare(name, sql) => (st.(prepared := st.prepared[name := sql]), Done)
    case Execute(_, _) => (st, Threw)
    case ListTables => (st, if st.db.None? then Failed else Done)
    case Select(_, _, _, _, _, _) => (st, Done)
    case Exit => (st, Done)
    case _ => DataStep(fp, st, q)
  }

  /** The statement a prepared one stands for. */
  function BoundCommand(fp: FloatText, st: State, name: string, parameters: seq<Value>): Result<Command> {
    if name !in st.prepared then Err
    else
      var sql :- Bind(fp, st.prepared[name], parameters);
      Parse(fp, sql)
  }

  /** Where a chain of EXECUTEs ends: at another statement, at an exception, or nowhere within the stack. */
  datatype Target = Reached(q: Command) | Rejected | Exhausted

  /** A prepared statement may itself execute one; `depth` says how many such calls the stack holds. */
  function Follow(fp: FloatText, depth: nat, st: State, q: Command): (t: Target)
    ensures t.Reached? ==> !t.q.Execute?
  {
    if !q.Execute? then Reached(q)
    else if depth == 0 then Exhausted
    else
      var bound := BoundCommand(fp, st, q.name, q.parameters);
      if bound.Err? then Rejected else Follow(fp, depth - 1, st, bound.value)
  }

  /** A deeper stack changes nothing but chains that were cut short. */
  lemma {:induction false} FollowDeeper(fp: FloatText, depth: nat, more: nat, st: State, q: Command)
    requires depth <= more && !Follow(fp, depth, st, q).Exhausted?
    ensures Follow(fp, more, st, q) == Follow(fp, depth, st, q)
    decreases depth
  {
    hide BoundCommand;
    if q.Execute? {
      var bound := BoundCommand(fp, st, q.name, q.parameters);
      if bound.Ok? {
        FollowDeeper(fp, depth - 1, more - 1, st, bound.value);
      }
    }
  }

  /** A statement prepared as its own execution exhausts any stack. */
  lemma {:induction false} EndlessChain(fp: FloatText, depth: nat, st: State, q: Command)
    requires q.Execute? && BoundCommand(fp, st, q.name, q.parameters) == Ok(q)
    ensures Follow(fp, depth, st, q) == Exhausted
  {
    hide BoundCommand;
    if depth > 0 {
      EndlessChain(fp, depth - 1, st, q);
    }
  }

  /** `execute`: prepared statements are followed to the statement they stand for, which then runs. */
  function Step(fp: FloatText, depth: nat, st: State, q: Command): (State, Outcome)
    requires ValidState(st)
  {
    var target := Follow(fp, depth, st, q);
    match target
    case Reached(command) => StepUnlocked(fp, st, command)
    case Rejected => (st, Threw)
    case Exhausted => (st, Crashed)
  }

  // ----- Restart -----

  /** The replay loop; an exception abandons the database. */
  function Replay(fp: FloatText, st: State, records: seq<WalRecord>): (r: State)
    requires ValidState(st)
    ensures ValidState(r)
    decreases |records|
  {
    if records == [] then st
    else
      var r := records[0];
      if r.operation == SaveDatabaseOp then Replay(fp, st, records[1..])
      else if r.operation == CreateDatabaseOp && ' ' !in r.payload then
        if r.payload == "" then st.(db := None)
        else Replay(fp, st.(db := Some(Db(r.payload, map[]))), records[1..])
      else
        var q := Parse(fp, r.payload);
        if q.Err? then st.(db := None)
        else
          StepKeepsValid(fp, st, q.value);
          var step := StepUnlocked(fp, st, q.value);
          if step.1 == Threw then step.0.(db := None) else Replay(fp, step.0, records[1..])
  }

  /** Position after the last save record. */
  function AfterLastSave(records: seq<WalRecord>): (start: nat)
    ensures start <= |records|
  {
    if records == [] then 0
    else if records[|records| - 1].operation == SaveDatabaseOp then |records|
    else AfterLastSave(records[..|records| - 1])
  }

  function Start(disk: map<string, string>, file: string): State {
    State(None, None, None, NO_TRANSACTIONS, map[], Wal(file, None), disk, false)
  }

  /** The executor's constructor over the files an earlier process left. */
  function Recover(fp: FloatText, disk: map<string, string>, file: string): (r: State)
    ensures ValidState(r)
  {
    var loaded := LoadFirst(disk);
    var st := Start(disk, file).(db := if loaded.Ok? then Some(loaded.value) else None);
    var records := ReadAll(file);
    if records.Err? || records.value == [] then st
    else
      var start := if loaded.Ok? then AfterLastSave(records.value) else 0;
      Replay(fp, st.(replaying := true), records.value[start..]).(replaying := false)
  }

  // ----- Every statement keeps the state valid -----

  lemma ChangedKeepsValid(db: Db, table: string, rows: seq<Row>)
    requires ValidDb(db) && table in db.tables && ValidRows(db.tables[table].schema, rows)
    ensures ValidDb(db.(tables := db.tables[table := db.tables[table].(rows := rows)]))
  {
  }

  lemma DataEffectKeepsValid(db: Option<Db>, q: Command)
    requires IsData(q) && (db.Some? ==> ValidDb(db.value))
    ensures DataEffect(db, q).db.Some? ==> ValidDb(DataEffect(db, q).db.value)
    ensures DataEffect(db, q).db.Some? <==> db.Some?
  {
    if q.Update? && HasTable(db, q.table) {
      var t := db.value.tables[q.table];
      var target := ColumnIndex(t.schema, q.column);
      if target.Some? {
        UpdateKeepsValid(t.schema, t.rows, target.value, q.value, q.where, 0);
        ChangedKeepsValid(db.value, q.table, UpdateFrom(t.schema, t.rows, target.value, q.value, q.where, 0).rows);
      }
    } else if q.Delete? && HasTable(db, q.table) {
      var t := db.value.tables[q.table];
      DeleteKeepsValid(t.schema, t.rows, q.where, |t.rows|);
      ChangedKeepsValid(db.value, q.table, DeleteFrom(t.schema, t.rows, q.where, |t.rows|).rows);
    }
  }

  lemma {:induction false} InsertLoopKeepsValid(fp: FloatText, st: State, table: string, rows: seq<Row>)
    requires ValidState(st)
    ensures ValidState(InsertLoop(fp, st, table, rows).0)
    decreases |rows|
  {
    if rows != [] {
      var logged := Log(st, InsertOp, InsertSql(fp, table, rows[0]));
      if logged.Ok? {
        DataEffectKeepsValid(st.db, Insert(table, [rows[0]]));
        InsertLoopKeepsValid(fp, logged.value.(db := InsertEffect(st.db, table, [rows[0]]).db), table, rows[1..]);
      }
    }
  }

  lemma DataStepKeepsValid(fp: FloatText, st: State, q: Command)
    requires ValidState(st) && IsData(q)
    ensures ValidState(DataStep(fp, st, q).0)
  {
    hide ValidDb, DataEffect, StatementText, InsertLoop;
    DataEffectKeepsValid(st.db, q);
    if q.Insert? {
      InsertLoopKeepsValid(fp, st, q.table, q.rows);
    }
  }

  lemma StepKeepsValid(fp: FloatText, st: State, q: Command)
    requires ValidState(st)
    ensures ValidState(StepUnlocked(fp, st, q).0)
  {
    if IsData(q) {
      hide DataStep, ValidState;
      DataStepKeepsValid(fp, st, q);
    } else {
      hide DataStep;
    }
  }

  lemma ExecuteKeepsValid(fp: FloatText, depth: nat, st: State, q: Command)
    requires ValidState(st)
    ensures ValidState(Step(fp, depth, st, q).0)
  {
    hide StepUnlocked, ValidState, Follow;
    var target := Follow(fp, depth, st, q);
    if target.Reached? {
      StepKeepsValid(fp, st, target.q);
    }
  }
}
