/**
 Runs a user can recognise as safe: one database name, no ROLLBACK and no LOAD, no double literals, predicates over
 existing columns. In every such run the files rebuild the live database at every moment.
 */
module PlainRuns {
  import opened Results
  import opened Values
  import opened Ast
  import opened SqlText
  import opened SqlRoundTrip
  import opened Relations
  import opened WalFormat
  import opened WriteAheadLogs
  import opened Snapshot
  import opened Execution
  import opened Replays
  import opened Recovery
  import opened CrashWindows
  import opened Runs

  // ----- Plain statements -----

  predicate NoDoublesIn(p: Predicate) {
    match p
    case Comparison(_, _, value) => !value.Dbl?
    case And(l, r) => NoDoublesIn(l) && NoDoublesIn(r)
    case Or(l, r) => NoDoublesIn(l) && NoDoublesIn(r)
  }

  predicate NoDoubles(q: Command) {
    match q
    case Insert(_, rows) => forall i, j :: 0 <= i < |rows| && 0 <= j < |rows[i]| ==> !rows[i][j].Dbl?
    case Update(_, _, value, where) => !value.Dbl? && (where.Some? ==> NoDoublesIn(where.value))
    case Delete(_, where) => where.Some? ==> NoDoublesIn(where.value)
    case _ => true
  }

  /** The columns a row statement compares exist in its table. */
  predicate ColumnsExist(db: Option<Db>, q: Command) {
    (q.Update? || q.Delete?) && HasTable(db, q.table) ==> WhereResolves(db.value.tables[q.table].schema, q.where)
  }

  /** Of the statement a text finally stands for, however many prepared statements lead there. */
  predicate Plain(st: State, q: Command, name: string) {
    && !q.Rollback? && !q.LoadDatabase? && !q.Execute?
    && (q.CreateDatabase? ==> q.name == name)
    && NoDoubles(q) && ColumnsExist(st.db, q)
  }

  /** All sizes fit 64 bits. */
  predicate Sized(fp: FloatText, st: State, records: seq<WalRecord>, q: Command) {
    match q
    case CreateDatabase(name) => Short(name) && |records| + 2 < TWO_64
    case Insert(table, rows) =>
      |records| + |rows| + 2 < TWO_64 && forall i :: 0 <= i < |rows| ==> Short(InsertSql(fp, table, rows[i]))
    case SaveDatabase => |records| + 2 < TWO_64 && (st.db.Some? ==> Addressable(st.db.value))
    case _ => Logged(q) ==> Short(StatementText(fp, q)) && |records| + 2 < TWO_64
  }

  /** Only one database name is in play. */
  predicate OneName(st: State, name: string) {
    && st.disk.Keys <= {name}
    && (st.db.Some? ==> st.db.value.name == name)
  }

  // ----- They are allowed -----

  lemma {:induction false} NoDoublesReread(fp: FloatText, p: Predicate)
    requires NoDoublesIn(p)
    ensures PredicateRereads(fp, p)
  {
    if !p.Comparison? {
      NoDoublesReread(fp, p.left);
      NoDoublesReread(fp, p.right);
    }
  }

  lemma PlainLiterals(fp: FloatText, q: Command)
    requires NoDoubles(q)
    ensures LiteralsReread(fp, q)
  {
    if (q.Update? || q.Delete?) && q.where.Some? {
      NoDoublesReread(fp, q.where.value);
    }
  }

  /** With resolvable columns the loops throw before they change anything, or not at all. */
  lemma ResolvedNeverHalfWay(db: Option<Db>, q: Command)
    requires (db.Some? ==> ValidDb(db.value)) && ColumnsExist(db, q)
    ensures !HalfWay(db, q)
  {
    if (q.Update? || q.Delete?) && HasTable(db, q.table) {
      var t := db.value.tables[q.table];
      forall i | 0 <= i < |t.rows| ensures MatchesWhere(t.schema, t.rows[i], q.where).Ok? {
        WhereIsLogic(t.schema, t.rows[i], q.where);
      }
      hide MatchesWhere, UpdateStop, DeleteStop, WhereResolves, FitsColumn, ValidRow;
      if q.Update? {
        var target := ColumnIndex(t.schema, q.column);
        if target.Some? {
          UpdateStopIsFirst(t.schema, t.rows, target.value, q.value, q.where, 0);
        }
      } else {
        DeleteStopIsLast(t.schema, t.rows, q.where, |t.rows|);
      }
    }
  }

  lemma PlainIsAllowed(fp: FloatText, st: State, records: seq<WalRecord>, q: Command, name: string)
    requires ValidState(st) && OneName(st, name) && Plain(st, q, name) && Sized(fp, st, records, q)
    ensures Expressible(fp, st, records, q) && !Drops(st, q) && Survives(fp, st.db, q)
  {
    hide HalfWay, StatementText, InsertSql, Addressable, ValidDb, NoDoubles, LiteralsReread, ColumnsExist, Survives,
        ShapedCommand, Hidden;
    PlainLiterals(fp, q);
    RereadingSurvives(fp, st.db, q);
    ResolvedNeverHalfWay(st.db, q);
    if q.SaveDatabase? && st.db.Some? {
      AloneIsNotHidden(st.disk, st.db.value);
    }
  }

  lemma AloneIsNotHidden(disk: map<string, string>, db: Db)
    requires disk.Keys <= {db.name}
    ensures !Hidden(disk, db) && !Displaced(disk, db)
  {
    hide DecodeDb;
    StrOrder();
    assert forall first :: first in disk ==> !StrLess(first, db.name);
  }

  // ----- One name stays one name -----

  lemma {:induction false} InsertKeepsName(fp: FloatText, st: State, table: string, rows: seq<Row>, name: string)
    requires OneName(st, name)
    ensures OneName(InsertLoop(fp, st, table, rows).0, name)
    decreases |rows|
  {
    hide InsertSql, ValidRows, AppendTo;
    if rows != [] {
      var logged := Log(st, InsertOp, InsertSql(fp, table, rows[0]));
      if logged.Ok? {
        InsertKeepsName(fp, logged.value.(db := InsertEffect(st.db, table, [rows[0]]).db), table, rows[1..], name);
      }
    }
  }

  lemma EffectKeepsName(db: Option<Db>, q: Command)
    requires IsData(q)
    ensures DataEffect(db, q).db.Some? <==> db.Some?
    ensures db.Some? ==> DataEffect(db, q).db.value.name == db.value.name
  {
    hide UpdateFrom, DeleteFrom, ValidRows, ColumnIndex;
  }

  lemma StepKeepsName(fp: FloatText, st: State, q: Command, name: string)
    requires ValidState(st) && OneName(st, name) && Plain(st, q, name)
    ensures OneName(StepUnlocked(fp, st, q).0, name)
  {
    hide InsertLoop, StatementText, AppendTo, EncodeDb, ValidDb, DataEffect, NoDoubles, ColumnsExist;
    if q.Insert? {
      InsertKeepsName(fp, st, q.table, q.rows, name);
    } else if IsData(q) {
      EffectKeepsName(st.db, q);
    }
  }

  // ----- Whole runs -----

  predicate PlainText(fp: FloatText, depth: nat, st: State, records: seq<WalRecord>, sql: string, name: string) {
    var target := Submitted(fp, depth, st, sql);
    target.Reached? ==> Plain(st, target.q, name) && Sized(fp, st, records, target.q)
  }

  /** A crash inside SAVE before its snapshot is published is only plain while there is no older snapshot. */
  predicate PlainEvent(fp: FloatText, depth: nat, st: State, records: seq<WalRecord>, event: RunEvent, name: string) {
    match event
    case Submit(sql) => PlainText(fp, depth, st, records, sql, name)
    case Restart => true
    case SaveCrash(published) => Sized(fp, st, records, SaveDatabase) && (!published ==> st.disk == map[])
    case InsertCrash(sql, _) => PlainText(fp, depth, st, records, sql, name)
  }

  ghost predicate PlainRun(fp: FloatText, depth: nat, st: State, records: seq<WalRecord>, events: seq<RunEvent>,
      name: string)
    requires ValidState(st)
    decreases |events|
  {
    events == [] ||
    (PlainEvent(fp, depth, st, records, events[0], name) &&
     PlainRun(fp, depth, After(fp, depth, st, events[0]), RecordsAfter(fp, depth, st, records, events[0]), events[1..],
         name))
  }

  lemma SubmitKeepsName(fp: FloatText, depth: nat, st: State, records: seq<WalRecord>, sql: string, name: string)
    requires Consistent(fp, st, records) && ValidState(st) && OneName(st, name)
    requires PlainEvent(fp, depth, st, records, Submit(sql), name)
    ensures Allowed(fp, depth, st, records, Submit(sql)) && OneName(After(fp, depth, st, Submit(sql)), name)
  {
    hide Consistent, Recover, Submitted, Sized, Expressible, Drops, Survives, Plain, ValidState, StepUnlocked, After;
    var target := Submitted(fp, depth, st, sql);
    AfterSubmit(fp, depth, st, sql);
    if target.Reached? {
      PlainIsAllowed(fp, st, records, target.q, name);
      StepKeepsName(fp, st, target.q, name);
    } else {
      ConsistentRecovers(fp, st, records);
    }
  }

  lemma SaveCrashKeepsName(fp: FloatText, depth: nat, st: State, records: seq<WalRecord>, published: bool, name: string)
    requires Consistent(fp, st, records) && ValidState(st) && OneName(st, name)
    requires PlainEvent(fp, depth, st, records, SaveCrash(published), name)
    ensures Allowed(fp, depth, st, records, SaveCrash(published)) &&
        OneName(After(fp, depth, st, SaveCrash(published)), name)
  {
    hide Consistent, Recover, Hidden, Displaced, EncodeDb, ValidDb, AddressableTable, After, AppendTo, SortedNames;
    if st.db.Some? {
      AloneIsNotHidden(st.disk, st.db.value);
    }
    SaveCrashKeepsConsistent(fp, depth, st, records, published);
  }

  lemma InsertCrashKeepsName(fp: FloatText, depth: nat, st: State, records: seq<WalRecord>, sql: string, k: nat,
      name: string)
    requires Consistent(fp, st, records) && ValidState(st) && OneName(st, name)
    requires PlainEvent(fp, depth, st, records, InsertCrash(sql, k), name)
    ensures Allowed(fp, depth, st, records, InsertCrash(sql, k)) &&
        OneName(After(fp, depth, st, InsertCrash(sql, k)), name)
  {
    hide Consistent, Recover, Submitted, ValidState, Expressible, Survives, After, InsertLoop, ValidDb, ValidRow,
        InsertSql;
    var q := CutInsert(fp, depth, st, sql, k);
    if q.Some? {
      PlainIsAllowed(fp, st, records, q.value, name);
    }
    InsertCrashKeepsRows(fp, depth, st, records, sql, k);
  }

  lemma EventKeepsName(fp: FloatText, depth: nat, st: State, records: seq<WalRecord>, event: RunEvent, name: string)
    requires Consistent(fp, st, records) && ValidState(st) && OneName(st, name)
    requires PlainEvent(fp, depth, st, records, event, name)
    ensures Allowed(fp, depth, st, records, event) && OneName(After(fp, depth, st, event), name)
  {
    hide Consistent, Recover, Submitted, Sized, Expressible, Drops, Survives, Plain, ValidState, StepUnlocked,
        InsideSave, CutInsert, InsideInsert;
    match event {
      case Submit(sql) => SubmitKeepsName(fp, depth, st, records, sql, name);
      case Restart => ConsistentRecovers(fp, st, records);
      case SaveCrash(published) => SaveCrashKeepsName(fp, depth, st, records, published, name);
      case InsertCrash(sql, k) => InsertCrashKeepsName(fp, depth, st, records, sql, k, name);
    }
  }

  lemma {:induction false} PlainRunAllowed(fp: FloatText, depth: nat, st: State, records: seq<WalRecord>,
      events: seq<RunEvent>, name: string)
    requires Consistent(fp, st, records) && ValidState(st) && OneName(st, name) &&
        PlainRun(fp, depth, st, records, events, name)
    ensures AllowedRun(fp, depth, st, records, events)
    decreases |events|
  {
    hide Consistent, After, RecordsAfter, PlainEvent, OneName, Allowed, ValidState;
    if events != [] {
      EventKeepsName(fp, depth, st, records, events[0], name);
      EventKeepsConsistent(fp, depth, st, records, events[0]);
      PlainRunAllowed(fp, depth, After(fp, depth, st, events[0]), RecordsAfter(fp, depth, st, records, events[0]),
          events[1..], name);
    }
  }

  /**
   From an empty directory, any mixture of CREATE DATABASE under one name, CREATE, DROP and RENAME TABLE, INSERT,
   UPDATE, DELETE, CREATE INDEX, SAVE, BEGIN, COMMIT, queries, prepared statements leading to any of these, rejected
   texts, restarts, crashes inside SAVE and INSERT and stack overflows leaves files that rebuild the live database and
   can be gone on from.
   */
  lemma EveryPlainRunRecovers(fp: FloatText, depth: nat, events: seq<RunEvent>, name: string)
      returns (held: seq<WalRecord>)
    requires PlainRun(fp, depth, Recover(fp, map[], ""), [], events, name)
    ensures Consistent(fp, Run(fp, depth, Recover(fp, map[], ""), events), held)
    ensures Recovers(fp, Run(fp, depth, Recover(fp, map[], ""), events))
  {
    hide Consistent, Recovers, PlainRun, Recover, AllowedRun;
    FreshStartConsistent(fp);
    FreshStartUnnamed(fp, name);
    PlainRunAllowed(fp, depth, Recover(fp, map[], ""), [], events, name);
    held := RunRecovers(fp, depth, Recover(fp, map[], ""), [], events);
  }

  lemma FreshStartUnnamed(fp: FloatText, name: string)
    ensures OneName(Recover(fp, map[], ""), name)
  {
    FreshStartConsistent(fp);
    RecoverIsReplay(fp, map[], []);
  }
}
