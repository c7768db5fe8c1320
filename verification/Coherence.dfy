/** The executor's transaction fields and the transaction manager never disagree, whatever statements run. */
module Coherence {
  import opened Results
  import opened Values
  import opened Ast
  import opened SqlText
  import opened Relations
  import opened SqlRoundTrip
  import opened Grammar
  import opened WalFormat
  import opened Transactions
  import opened Execution
  import opened Runs

  /** A held snapshot implies an active transaction, known to the manager as active. */
  predicate Coherent(st: State) {
    && ValidManager(st.transactions)
    && (st.snapshot.Some? ==> st.active.Some? && IsActive(st.transactions, st.active.value))
  }

  lemma {:induction false} InsertLoopFrame(fp: FloatText, st: State, table: string, rows: seq<Row>)
    ensures var next := InsertLoop(fp, st, table, rows).0;
      next.snapshot == st.snapshot && next.active == st.active && next.transactions == st.transactions
    decreases |rows|
  {
    hide InsertSql, InsertEffect;
    if rows != [] {
      var logged := Log(st, InsertOp, InsertSql(fp, table, rows[0]));
      if logged.Ok? {
        InsertLoopFrame(fp, logged.value.(db := InsertEffect(st.db, table, [rows[0]]).db), table, rows[1..]);
      }
    }
  }

  /** Data statements do not touch the transaction. */
  lemma DataStepFrame(fp: FloatText, st: State, q: Command)
    requires IsData(q)
    ensures var next := DataStep(fp, st, q).0;
      next.snapshot == st.snapshot && next.active == st.active && next.transactions == st.transactions
  {
    hide DataEffect, StatementText, InsertLoop;
    if q.Insert? {
      InsertLoopFrame(fp, st, q.table, q.rows);
    }
  }

  lemma StatementKeepsCoherent(fp: FloatText, st: State, q: Command)
    requires ValidState(st) && Coherent(st)
    ensures Coherent(StepUnlocked(fp, st, q).0)
  {
    hide DataStep, ValidState, LoadFirst, LoadNamed;
    if IsData(q) {
      DataStepFrame(fp, st, q);
    }
  }

  /** Every call, LOAD and chains of prepared statements included, keeps the transaction coherent. */
  lemma StepKeepsCoherent(fp: FloatText, depth: nat, st: State, q: Command)
    requires ValidState(st) && Coherent(st)
    ensures Coherent(Step(fp, depth, st, q).0)
  {
    hide StepUnlocked, Coherent, ValidState, Follow;
    var target := Follow(fp, depth, st, q);
    if target.Reached? {
      StatementKeepsCoherent(fp, st, target.q);
    }
  }

  /** COMMIT and ROLLBACK succeed inside a transaction, and are refused outside; nothing throws. */
  lemma FinishSucceedsExactly(st: State)
    requires Coherent(st)
    ensures FinishStep(st, Committed).1 == (if st.snapshot.Some? then Done else Failed)
    ensures RollbackStep(st).1 == (if st.snapshot.Some? then Done else Failed)
    ensures st.snapshot.Some? ==> RollbackStep(st).0.db == st.snapshot && RollbackStep(st).0.snapshot == None
  {
  }

  // ----- Over whole runs -----

  /** Whatever the log holds: statements replayed from it are kept coherent like others. */
  lemma {:induction false} ReplayKeepsCoherent(fp: FloatText, st: State, records: seq<WalRecord>)
    requires ValidState(st) && Coherent(st)
    ensures Coherent(Replay(fp, st, records))
    decreases |records|
  {
    hide Parse, StepUnlocked, ValidDb;
    if records != [] {
      var r := records[0];
      if r.operation == SaveDatabaseOp {
        ReplayKeepsCoherent(fp, st, records[1..]);
      } else if r.operation == CreateDatabaseOp && ' ' !in r.payload {
        if r.payload != "" {
          NewDatabaseKeeps(st, r.payload);
          ReplayKeepsCoherent(fp, st.(db := Some(Db(r.payload, map[]))), records[1..]);
        }
      } else {
        var q := Parse(fp, r.payload);
        if q.Ok? {
          StepKeepsValid(fp, st, q.value);
          StatementKeepsCoherent(fp, st, q.value);
          if StepUnlocked(fp, st, q.value).1 != Threw {
            ReplayKeepsCoherent(fp, StepUnlocked(fp, st, q.value).0, records[1..]);
          }
        }
      }
    }
  }

  lemma NewDatabaseKeeps(st: State, name: string)
    requires ValidState(st) && Coherent(st) && name != ""
    ensures ValidState(st.(db := Some(Db(name, map[])))) && Coherent(st.(db := Some(Db(name, map[]))))
  {
  }

  /** An executor opened on any files, damaged ones included, is coherent. */
  lemma OpenedIsCoherent(fp: FloatText, disk: map<string, string>, file: string)
    ensures Coherent(Recover(fp, disk, file))
  {
    hide Replay, LoadFirst, ReadAll, ValidDb;
    var loaded, records := LoadFirst(disk), ReadAll(file);
    if records.Ok? && records.value != [] {
      var st := Start(disk, file).(db := if loaded.Ok? then Some(loaded.value) else None, replaying := true);
      ReplayKeepsCoherent(fp, st, records.value[if loaded.Ok? then AfterLastSave(records.value) else 0..]);
    }
  }

  lemma EventKeepsCoherent(fp: FloatText, depth: nat, st: State, event: RunEvent)
    requires ValidState(st) && Coherent(st)
    ensures Coherent(After(fp, depth, st, event))
  {
    hide Recover, Coherent, StepUnlocked, Submitted, InsideSave, InsideInsert, ValidState, Step;
    match event {
      case Submit(sql) =>
        AfterSubmit(fp, depth, st, sql);
        OpenedIsCoherent(fp, st.disk, st.wal.file);
        var target := Submitted(fp, depth, st, sql);
        if target.Reached? {
          StatementKeepsCoherent(fp, st, target.q);
        }
      case Restart => OpenedIsCoherent(fp, st.disk, st.wal.file);
      case SaveCrash(published) =>
        OpenedIsCoherent(fp, InsideSave(st, published).disk, InsideSave(st, published).wal.file);
      case InsertCrash(sql, k) =>
        OpenedIsCoherent(fp, InsideInsert(fp, depth, st, sql, k).disk, InsideInsert(fp, depth, st, sql, k).wal.file);
    }
  }

  lemma {:induction false} RunKeepsCoherent(fp: FloatText, depth: nat, st: State, events: seq<RunEvent>)
    requires ValidState(st) && Coherent(st)
    ensures Coherent(Run(fp, depth, st, events))
    decreases |events|
  {
    hide After, Coherent, ValidState;
    if events != [] {
      EventKeepsCoherent(fp, depth, st, events[0]);
      RunKeepsCoherent(fp, depth, After(fp, depth, st, events[0]), events[1..]);
    }
  }

  /** What the "transaction state is inconsistent" branches of COMMIT and ROLLBACK test for. */
  predicate Inconsistent(st: State) {
    st.snapshot.Some? && st.active.None?
  }

  /**
   From any files at all, over any texts, restarts and crashes: the "transaction state is inconsistent" branches of
   COMMIT and ROLLBACK are never reached, and the manager never throws, neither there nor by handing out a used
   identifier.
   */
  lemma InconsistentIsUnreachable(fp: FloatText, depth: nat, disk: map<string, string>, file: string,
      events: seq<RunEvent>)
    ensures var st := Run(fp, depth, Recover(fp, disk, file), events);
      && !Inconsistent(st)
      && FinishStep(st, Committed).1 == (if st.snapshot.Some? then Done else Failed)
      && RollbackStep(st).1 == (if st.snapshot.Some? then Done else Failed)
      && st.transactions.nextId !in st.transactions.states
  {
    hide Recover, Run, FinishStep, RollbackStep, ValidState;
    OpenedIsCoherent(fp, disk, file);
    RunKeepsCoherent(fp, depth, Recover(fp, disk, file), events);
    FinishSucceedsExactly(Run(fp, depth, Recover(fp, disk, file), events));
  }

  // ----- Inside a transaction -----

  /**
   The call does not end the transaction: the statement it comes down to, prepared ones followed, is none of COMMIT,
   ROLLBACK and LOAD, and the process survives it.
   */
  predicate Inside(fp: FloatText, depth: nat, st: State, q: Command) {
    match Follow(fp, depth, st, q)
    case Reached(command) => !command.Commit? && !command.Rollback? && !command.LoadDatabase?
    case Rejected => true
    case Exhausted => false
  }

  function RunAll(fp: FloatText, depth: nat, st: State, qs: seq<Command>): (r: State)
    requires ValidState(st)
    ensures ValidState(r)
    decreases |qs|
  {
    if qs == [] then st
    else
      ExecuteKeepsValid(fp, depth, st, qs[0]);
      RunAll(fp, depth, Step(fp, depth, st, qs[0]).0, qs[1..])
  }

  /** Every call of the run is inside the transaction in the state it meets. */
  predicate AllInside(fp: FloatText, depth: nat, st: State, qs: seq<Command>)
    requires ValidState(st)
    decreases |qs|
  {
    qs == [] ||
    (Inside(fp, depth, st, qs[0]) &&
     (ExecuteKeepsValid(fp, depth, st, qs[0]); AllInside(fp, depth, Step(fp, depth, st, qs[0]).0, qs[1..])))
  }

  lemma StatementKeepsSnapshot(fp: FloatText, st: State, q: Command)
    requires ValidState(st) && Coherent(st) && st.snapshot.Some? && !q.Commit? && !q.Rollback? && !q.LoadDatabase?
    ensures StepUnlocked(fp, st, q).0.snapshot == st.snapshot
  {
    hide DataStep, ValidState, LoadFirst, LoadNamed;
    if IsData(q) {
      DataStepFrame(fp, st, q);
    }
  }

  lemma InsideKeepsSnapshot(fp: FloatText, depth: nat, st: State, q: Command)
    requires ValidState(st) && Coherent(st) && st.snapshot.Some? && Inside(fp, depth, st, q)
    ensures Step(fp, depth, st, q).0.snapshot == st.snapshot
  {
    hide StepUnlocked, Coherent, ValidState, Follow;
    var target := Follow(fp, depth, st, q);
    if target.Reached? {
      StatementKeepsSnapshot(fp, st, target.q);
    }
  }

  lemma {:induction false} RunInside(fp: FloatText, depth: nat, st: State, qs: seq<Command>)
    requires ValidState(st) && Coherent(st) && st.snapshot.Some? && AllInside(fp, depth, st, qs)
    ensures Coherent(RunAll(fp, depth, st, qs)) && RunAll(fp, depth, st, qs).snapshot == st.snapshot
    decreases |qs|
  {
    hide Step, Coherent, ValidState, Inside;
    if qs != [] {
      ExecuteKeepsValid(fp, depth, st, qs[0]);
      StepKeepsCoherent(fp, depth, st, qs[0]);
      InsideKeepsSnapshot(fp, depth, st, qs[0]);
      RunInside(fp, depth, Step(fp, depth, st, qs[0]).0, qs[1..]);
    }
  }

  /**
   Whatever is called between BEGIN and ROLLBACK, prepared statements and statements failing half-way included, the
   database afterwards is the one at BEGIN, as long as no call comes down to COMMIT, ROLLBACK or LOAD.
   */
  lemma RollbackRestoresBegin(fp: FloatText, depth: nat, st: State, qs: seq<Command>)
    requires ValidState(st) && Coherent(st) && st.db.Some? && st.snapshot.None?
    requires AllInside(fp, depth, BeginStep(st).0, qs)
    ensures RollbackStep(RunAll(fp, depth, BeginStep(st).0, qs)).1 == Done
    ensures RollbackStep(RunAll(fp, depth, BeginStep(st).0, qs)).0.db == st.db
  {
    hide RunAll, ValidDb, Inside, AllInside;
    RunInside(fp, depth, BeginStep(st).0, qs);
    FinishSucceedsExactly(RunAll(fp, depth, BeginStep(st).0, qs));
  }

  /** EXECUTE of a prepared COMMIT commits: ROLLBACK then refuses, and what was done stays. */
  lemma PreparedCommitEnds(fp: FloatText, depth: nat, st: State, q: Command)
    requires ValidState(st) && Coherent(st) && st.snapshot.Some? && Follow(fp, depth, st, q) == Reached(Commit)
    ensures var next := Step(fp, depth, st, q).0;
      && Step(fp, depth, st, q).1 == Done && next.db == st.db && next.snapshot == None
      && RollbackStep(next) == (next, Failed)
  {
    hide Follow, ValidDb;
    FinishSucceedsExactly(st);
  }

  /**
   LOAD inside a transaction drops the snapshot but leaves the transaction active: the next COMMIT or ROLLBACK does
   nothing.
   */
  lemma LoadOrphansTransaction(st: State, source: Option<string>)
    requires Coherent(st) && st.snapshot.Some? && Loaded(st, source).Ok?
    ensures var next := LoadStep(st, source).0;
      next.active == st.active && Orphaned(next, next.active.value)
      && FinishStep(next, Committed) == (next, Failed) && RollbackStep(next) == (next, Failed)
  {
    hide LoadFirst, LoadNamed;
  }

  /** An active transaction that no snapshot belongs to. */
  predicate Orphaned(st: State, id: nat) {
    IsActive(st.transactions, id) && (st.snapshot.Some? ==> st.active != Some(id))
  }

  lemma StatementKeepsOrphan(fp: FloatText, st: State, q: Command, id: nat)
    requires ValidState(st) && Coherent(st) && Orphaned(st, id)
    ensures Orphaned(StepUnlocked(fp, st, q).0, id)
  {
    hide DataStep, ValidState, LoadFirst, LoadNamed;
    if IsData(q) {
      DataStepFrame(fp, st, q);
    }
  }

  lemma {:induction false} OrphanStays(fp: FloatText, depth: nat, st: State, qs: seq<Command>, id: nat)
    requires ValidState(st) && Coherent(st) && Orphaned(st, id)
    ensures Orphaned(RunAll(fp, depth, st, qs), id)
    decreases |qs|
  {
    hide StepUnlocked, Coherent, ValidState, Follow, Orphaned;
    if qs != [] {
      var target := Follow(fp, depth, st, qs[0]);
      ExecuteKeepsValid(fp, depth, st, qs[0]);
      StepKeepsCoherent(fp, depth, st, qs[0]);
      if target.Reached? {
        StatementKeepsOrphan(fp, st, target.q, id);
      }
      OrphanStays(fp, depth, Step(fp, depth, st, qs[0]).0, qs[1..], id);
    }
  }

  /** Whatever is called after that LOAD, later transactions included, as long as the process lives: it stays active. */
  lemma LoadOrphansForGood(fp: FloatText, depth: nat, st: State, source: Option<string>, qs: seq<Command>)
    requires ValidState(st) && Coherent(st) && st.snapshot.Some? && Loaded(st, source).Ok?
    ensures ValidState(LoadStep(st, source).0)
    ensures IsActive(RunAll(fp, depth, LoadStep(st, source).0, qs).transactions, st.active.value)
  {
    hide RunAll, LoadFirst, LoadNamed, ValidDb;
    LoadOrphansTransaction(st, source);
    OrphanStays(fp, depth, LoadStep(st, source).0, qs, st.active.value);
  }
}
