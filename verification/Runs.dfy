/**
 Whole runs: SQL texts arrive, the process dies between statements or inside SAVE, and new processes start on its files.
 `depth` is the number of nested EXECUTE calls the stack holds; the results hold for every depth.
 */
module Runs {
  import opened Results
  import opened Values
  import opened Ast
  import opened SqlText
  import opened Lexer
  import opened Grammar
  import opened SqlRoundTrip
  import opened Prepared
  import opened Parsing
  import opened Relations
  import opened WalFormat
  import opened WriteAheadLogs
  import opened Snapshot
  import opened Execution
  import opened Replays
  import opened Doubles
  import opened Recovery
  import opened CrashWindows

  /**
   A text is submitted; the process dies between statements; it dies inside SAVE, once the record is written and the
   snapshot is or is not yet published, and in either case before the log is emptied; or it dies inside an INSERT, once
   the records of its first `k` rows are written.
   */
  datatype RunEvent = Submit(sql: string) | Restart | SaveCrash(published: bool) | InsertCrash(sql: string, k: nat)

  /** The statement a text makes the executor run. */
  function Submitted(fp: FloatText, depth: nat, st: State, sql: string): (t: Target)
    ensures t.Reached? ==> !t.q.Execute?
  {
    var q := Parse(fp, sql);
    if q.Err? then Rejected else Follow(fp, depth, st, q.value)
  }

  /** The state in which a process dies inside SAVE. */
  function InsideSave(st: State, published: bool): State
    requires ValidState(st)
  {
    if st.db.None? then st
    else
      var logged := Log(st, SaveDatabaseOp, st.db.value.name);
      if logged.Err? then st else if published then Publish(logged.value) else logged.value
  }

  /** The INSERT that runs out of a text, cut down to its first `k` rows; none if it has fewer or one is refused. */
  function CutInsert(fp: FloatText, depth: nat, st: State, sql: string, k: nat): (q: Option<Command>)
    ensures q.Some? ==> q.value.Insert? && InsertEffect(st.db, q.value.table, q.value.rows).outcome == Done
  {
    match Submitted(fp, depth, st, sql)
    case Reached(Insert(table, rows)) =>
      if k <= |rows| && InsertEffect(st.db, table, rows).outcome == Done then Some(Insert(table, rows[..k])) else None
    case _ => None
  }

  /** The state in which a process dies inside an INSERT. */
  function InsideInsert(fp: FloatText, depth: nat, st: State, sql: string, k: nat): State {
    var q := CutInsert(fp, depth, st, sql, k);
    if q.Some? then InsertLoop(fp, st, q.value.table, q.value.rows).0 else st
  }

  function After(fp: FloatText, depth: nat, st: State, event: RunEvent): (r: State)
    requires ValidState(st)
    ensures ValidState(r)
  {
    match event
    case Submit(sql) =>
      var q := Parse(fp, sql);
      if q.Err? then st
      else
        ExecuteKeepsValid(fp, depth, st, q.value);
        var step := Step(fp, depth, st, q.value);
        if step.1 == Crashed then Recover(fp, st.disk, st.wal.file) else step.0
    case Restart => Recover(fp, st.disk, st.wal.file)
    case SaveCrash(published) => Recover(fp, InsideSave(st, published).disk, InsideSave(st, published).wal.file)
    case InsertCrash(sql, k) =>
      var dead := InsideInsert(fp, depth, st, sql, k);
      Recover(fp, dead.disk, dead.wal.file)
  }

  lemma {:induction false} FollowedIsNamed(fp: FloatText, depth: nat, st: State, q: Command)
    requires NamedCommand(q) && Follow(fp, depth, st, q).Reached?
    ensures NamedCommand(Follow(fp, depth, st, q).q)
    decreases depth
  {
    hide Parse, NamedCommand, Bind;
    if q.Execute? {
      var bound := BoundCommand(fp, st, q.name, q.parameters).value;
      ParsedIsNamed(fp, Bind(fp, st.prepared[q.name], q.parameters).value);
      FollowedIsNamed(fp, depth - 1, st, bound);
    }
  }

  lemma SubmittedIsNamed(fp: FloatText, depth: nat, st: State, sql: string)
    requires Submitted(fp, depth, st, sql).Reached?
    ensures NamedCommand(Submitted(fp, depth, st, sql).q)
  {
    hide Parse, NamedCommand, Follow;
    ParsedIsNamed(fp, sql);
    FollowedIsNamed(fp, depth, st, Parse(fp, sql).value);
  }

  lemma {:induction false} InsertLoopReturns(fp: FloatText, st: State, table: string, rows: seq<Row>)
    ensures InsertLoop(fp, st, table, rows).1 != Crashed
    decreases |rows|
  {
    hide InsertSql, InsertEffect, Log;
    if rows != [] {
      var logged := Log(st, InsertOp, InsertSql(fp, table, rows[0]));
      if logged.Ok? {
        InsertLoopReturns(fp, logged.value.(db := InsertEffect(st.db, table, [rows[0]]).db), table, rows[1..]);
      }
    }
  }

  /**
   A statement returns or throws. In this model only a chain of prepared statements longer than the stack takes the
   process down; how deep the parser and the predicate printer recurse is not part of it.
   */
  lemma StepReturns(fp: FloatText, st: State, q: Command)
    requires ValidState(st)
    ensures StepUnlocked(fp, st, q).1 != Crashed
  {
    hide InsertLoop, StatementText, UpdateFrom, DeleteFrom, LoadFirst, LoadNamed, Log, ColumnIndex, ValidRows;
    if q.Insert? {
      InsertLoopReturns(fp, st, q.table, q.rows);
    }
  }

  lemma AfterSubmit(fp: FloatText, depth: nat, st: State, sql: string)
    requires ValidState(st)
    ensures After(fp, depth, st, Submit(sql)) ==
      match Submitted(fp, depth, st, sql)
      case Reached(q) => StepUnlocked(fp, st, q).0
      case Rejected => st
      case Exhausted => Recover(fp, st.disk, st.wal.file)
  {
    hide Parse, StepUnlocked, Follow, Recover, ValidState;
    var target := Submitted(fp, depth, st, sql);
    if target.Reached? {
      StepReturns(fp, st, target.q);
    }
  }

  // ----- Runs that keep the database recoverable -----

  predicate Allowed(fp: FloatText, depth: nat, st: State, records: seq<WalRecord>, event: RunEvent)
    requires ValidState(st)
  {
    match event
    case Submit(sql) =>
      var target := Submitted(fp, depth, st, sql);
      target.Reached? ==>
        Expressible(fp, st, records, target.q) && !Drops(st, target.q) && Survives(fp, st.db, target.q)
    case Restart => true
    case SaveCrash(published) =>
      st.db.Some? ==>
        && Short(st.db.value.name) && |records| + 2 < TWO_64
        && if published then Addressable(st.db.value) && !Displaced(st.disk, st.db.value)
           else LoadsOnly(st.disk, st.db.value)
    case InsertCrash(sql, k) =>
      var q := CutInsert(fp, depth, st, sql, k);
      q.Some? ==> Expressible(fp, st, records, q.value) && Survives(fp, st.db, q.value)
  }

  /** The log after the event. */
  function RecordsAfter(fp: FloatText, depth: nat, st: State, records: seq<WalRecord>,
      event: RunEvent): seq<WalRecord> {
    match event
    case Submit(sql) =>
      var target := Submitted(fp, depth, st, sql);
      if target.Reached? then StepRecords(fp, st, records, target.q) else records
    case Restart => records
    case SaveCrash(_) =>
      if st.db.Some? then records + [WalRecord(|records| + 1, SaveDatabaseOp, st.db.value.name)] else records
    case InsertCrash(sql, k) =>
      var q := CutInsert(fp, depth, st, sql, k);
      if q.Some? then records + InsertRecords(fp, |records|, q.value.table, q.value.rows) else records
  }

  lemma SubmitKeepsConsistent(fp: FloatText, depth: nat, st: State, records: seq<WalRecord>, sql: string)
    requires Consistent(fp, st, records) && ValidState(st) && Allowed(fp, depth, st, records, Submit(sql))
    ensures Consistent(fp, After(fp, depth, st, Submit(sql)), RecordsAfter(fp, depth, st, records, Submit(sql)))
  {
    hide Consistent, Recovers, ValidState, Expressible, Drops, Survives, StepUnlocked, StepRecords, After, Submitted,
        NamedCommand, Recover;
    AfterSubmit(fp, depth, st, sql);
    var target := Submitted(fp, depth, st, sql);
    if target.Reached? {
      SubmittedIsNamed(fp, depth, st, sql);
      StepKeepsRecovery(fp, st, records, target.q);
    } else {
      ConsistentRecovers(fp, st, records);
    }
  }

  lemma SaveCrashKeepsConsistent(fp: FloatText, depth: nat, st: State, records: seq<WalRecord>, published: bool)
    requires Consistent(fp, st, records) && ValidState(st) && Allowed(fp, depth, st, records, SaveCrash(published))
    ensures Consistent(fp, After(fp, depth, st, SaveCrash(published)),
        RecordsAfter(fp, depth, st, records, SaveCrash(published)))
    ensures After(fp, depth, st, SaveCrash(published)).db == st.db
    ensures After(fp, depth, st, SaveCrash(published)).disk == InsideSave(st, published).disk
  {
    hide Consistent, Recover, LoadsOnly, Displaced, AppendTo, LoadFirst, EncodeDb, ValidDb, Addressable;
    if st.db.Some? {
      var next := InsideSave(st, published);
      if published {
        CrashAfterPublish(fp, st, records);
      } else {
        CrashBeforePublish(fp, st, records);
      }
      SameDatabase(st, published);
      ConsistentRecovers(fp, next, RecordsAfter(fp, depth, st, records, SaveCrash(published)));
    } else {
      ConsistentRecovers(fp, st, records);
    }
  }

  lemma SameDatabase(st: State, published: bool)
    requires ValidState(st)
    ensures InsideSave(st, published).db == st.db
  {
    hide EncodeDb, AppendTo, ValidDb;
  }

  /** The database with the first `k` rows of an INSERT that fits its table. */
  function WithFirstRows(db: Option<Db>, target: Target, k: nat): Option<Db> {
    match target
    case Reached(Insert(table, rows)) =>
      if HasTable(db, table) && ValidRows(db.value.tables[table].schema, rows) && k <= |rows| then
        var t := db.value.tables[table];
        Some(db.value.(tables := db.value.tables[table := t.(rows := t.rows + rows[..k])]))
      else db
    case _ => db
  }

  /**
   The rows of an INSERT whose records were written when the process died, and no others, are there after a restart.
   */
  lemma InsertCrashKeepsRows(fp: FloatText, depth: nat, st: State, records: seq<WalRecord>, sql: string, k: nat)
    requires Consistent(fp, st, records) && ValidState(st) && Allowed(fp, depth, st, records, InsertCrash(sql, k))
    ensures Consistent(fp, After(fp, depth, st, InsertCrash(sql, k)),
        RecordsAfter(fp, depth, st, records, InsertCrash(sql, k)))
    ensures After(fp, depth, st, InsertCrash(sql, k)).disk == st.disk
    ensures After(fp, depth, st, InsertCrash(sql, k)).db == WithFirstRows(st.db, Submitted(fp, depth, st, sql), k)
  {
    hide Consistent, Recover, InsertLoop, InsertSql, PrintableRow, ValidRow, ValidState, IsName, ShapedRow, Submitted;
    var q := CutInsert(fp, depth, st, sql, k);
    if q.Some? {
      SubmittedIsNamed(fp, depth, st, sql);
      InsertConsistent(fp, st, records, q.value.table, q.value.rows);
      InsertKeepsDisk(fp, st, q.value.table, q.value.rows);
      NoRows(st.db.value, q.value.table);
      ConsistentRecovers(fp, InsideInsert(fp, depth, st, sql, k),
          RecordsAfter(fp, depth, st, records, InsertCrash(sql, k)));
    } else {
      ConsistentRecovers(fp, st, records);
    }
  }

  lemma {:induction false} InsertKeepsDisk(fp: FloatText, st: State, table: string, rows: seq<Row>)
    ensures InsertLoop(fp, st, table, rows).0.disk == st.disk
    decreases |rows|
  {
    hide InsertSql, InsertEffect, AppendTo;
    if rows != [] {
      var logged := Log(st, InsertOp, InsertSql(fp, table, rows[0]));
      if logged.Ok? {
        InsertKeepsDisk(fp, logged.value.(db := InsertEffect(st.db, table, [rows[0]]).db), table, rows[1..]);
      }
    }
  }

  lemma NoRows(db: Db, table: string)
    requires table in db.tables
    ensures var t := db.tables[table];
      db.(tables := db.tables[table := t.(rows := t.rows + [])]) == db
  {
    var t := db.tables[table];
    assert t.(rows := t.rows + []) == t && db.tables[table := t] == db.tables;
  }

  lemma EventKeepsConsistent(fp: FloatText, depth: nat, st: State, records: seq<WalRecord>, event: RunEvent)
    requires Consistent(fp, st, records) && ValidState(st) && Allowed(fp, depth, st, records, event)
    ensures Consistent(fp, After(fp, depth, st, event), RecordsAfter(fp, depth, st, records, event))
    ensures event.Restart? || event.SaveCrash? ==> After(fp, depth, st, event).db == st.db
  {
    hide Consistent, Recover, Allowed, Step, Submitted, InsideSave, InsideInsert, CutInsert, StepRecords, InsertRecords;
    match event {
      case Submit(sql) => SubmitKeepsConsistent(fp, depth, st, records, sql);
      case Restart => ConsistentRecovers(fp, st, records);
      case SaveCrash(published) => SaveCrashKeepsConsistent(fp, depth, st, records, published);
      case InsertCrash(sql, k) => InsertCrashKeepsRows(fp, depth, st, records, sql, k);
    }
  }

  /** Every event of the run is allowed in the state it meets. */
  ghost predicate AllowedRun(fp: FloatText, depth: nat, st: State, records: seq<WalRecord>, events: seq<RunEvent>)
    requires ValidState(st)
    decreases |events|
  {
    events == [] ||
    (Allowed(fp, depth, st, records, events[0]) &&
     AllowedRun(fp, depth, After(fp, depth, st, events[0]), RecordsAfter(fp, depth, st, records, events[0]),
         events[1..]))
  }

  function Run(fp: FloatText, depth: nat, st: State, events: seq<RunEvent>): (r: State)
    requires ValidState(st)
    ensures ValidState(r)
    decreases |events|
  {
    if events == [] then st
    else Run(fp, depth, After(fp, depth, st, events[0]), events[1..])
  }

  /**
   Over every run of allowed events, crashes inside SAVE and INSERT among them, the files at any moment rebuild the live
   database, and the run may go on: the invariant holds for what the log has come to hold.
   */
  lemma {:induction false} RunRecovers(fp: FloatText, depth: nat, st: State, records: seq<WalRecord>,
      events: seq<RunEvent>)
    returns (held: seq<WalRecord>)
    requires Consistent(fp, st, records) && ValidState(st) && AllowedRun(fp, depth, st, records, events)
    ensures Consistent(fp, Run(fp, depth, st, events), held)
    ensures Recovers(fp, Run(fp, depth, st, events))
    decreases |events|
  {
    hide Consistent, Recovers, Allowed, After, RecordsAfter, ValidState;
    if events == [] {
      held := records;
      ConsistentRecovers(fp, st, records);
    } else {
      EventKeepsConsistent(fp, depth, st, records, events[0]);
      held := RunRecovers(fp, depth, After(fp, depth, st, events[0]), RecordsAfter(fp, depth, st, records, events[0]),
          events[1..]);
    }
  }

  // ----- Runs after a torn write -----

  /** A process that opened a log it cannot read. */
  predicate Torn(st: State) {
    ReadAll(st.wal.file).Err? && st.wal.nextLsn.None? && !st.replaying
  }

  lemma TornLogRefuses(st: State, op: WalOperation, payload: string)
    requires Torn(st)
    ensures Log(st, op, payload) == Err
  {
    hide ReadAll;
  }

  /** No statement reaches the files any more, SAVE included. */
  lemma TornStep(fp: FloatText, st: State, q: Command)
    requires ValidState(st) && Torn(st)
    ensures var next := StepUnlocked(fp, st, q).0;
      next.wal == st.wal && next.disk == st.disk && next.replaying == st.replaying
  {
    hide Log, ReadAll, StatementText, DataEffect, InsertSql, LoadFirst, LoadNamed, EncodeDb, ValidDb;
    forall op, payload ensures Log(st, op, payload) == Err { TornLogRefuses(st, op, payload); }
    if IsData(q) && !q.Insert? {
      var changed := st.(db := DataEffect(st.db, q).db);
      forall op, payload ensures Log(changed, op, payload) == Err { TornLogRefuses(changed, op, payload); }
    }
  }

  lemma TornRestart(fp: FloatText, st: State)
    requires Torn(st)
    ensures var next := Recover(fp, st.disk, st.wal.file);
      Torn(next) && next.wal.file == st.wal.file && next.disk == st.disk && next.db == Base(st.disk)
  {
    hide ReadAll, LoadFirst, Replay;
  }

  lemma TornInsert(fp: FloatText, depth: nat, st: State, sql: string, k: nat)
    requires Torn(st)
    ensures InsideInsert(fp, depth, st, sql, k) == st
  {
    hide Torn, InsertSql, Log, Submitted, InsertEffect;
    var q := CutInsert(fp, depth, st, sql, k);
    if q.Some? && q.value.rows != [] {
      TornLogRefuses(st, InsertOp, InsertSql(fp, q.value.table, q.value.rows[0]));
    }
  }

  lemma TornAfter(fp: FloatText, depth: nat, st: State, event: RunEvent)
    requires ValidState(st) && Torn(st)
    ensures var next := After(fp, depth, st, event);
      Torn(next) && next.wal.file == st.wal.file && next.disk == st.disk
  {
    hide Recover, StepUnlocked, Submitted, ReadAll, Log, Parse, Step;
    TornRestart(fp, st);
    if event.Submit? {
      AfterSubmit(fp, depth, st, event.sql);
      var target := Submitted(fp, depth, st, event.sql);
      if target.Reached? {
        TornStep(fp, st, target.q);
      }
    } else if event.SaveCrash? && st.db.Some? {
      TornLogRefuses(st, SaveDatabaseOp, st.db.value.name);
    } else if event.InsertCrash? {
      TornInsert(fp, depth, st, event.sql, event.k);
    }
  }

  /**
   Once a process starts on a torn log, nothing that is ever submitted becomes durable: over any run, with any restarts,
   the files stay as they are, and every restart falls back to the database of the last snapshot.
   */
  lemma {:induction false} TornRun(fp: FloatText, depth: nat, st: State, events: seq<RunEvent>)
    requires ValidState(st) && Torn(st)
    ensures var next := Run(fp, depth, st, events);
      && Torn(next) && next.wal.file == st.wal.file && next.disk == st.disk
      && Recover(fp, next.disk, next.wal.file).db == Base(st.disk)
    decreases |events|
  {
    hide After, Torn, Recover, LoadFirst;
    if events == [] {
      TornRestart(fp, st);
    } else {
      TornAfter(fp, depth, st, events[0]);
      TornRun(fp, depth, After(fp, depth, st, events[0]), events[1..]);
    }
  }
}
