/** What a restart makes of the saved file and the log, and the invariant that the two rebuild the live database. */
module Replays {
  import opened Results
  import opened Values
  import opened Ast
  import opened Lexer
  import opened SqlText
  import opened Grammar
  import opened SqlRoundTrip
  import opened Relations
  import opened WalFormat
  import opened WriteAheadLogs
  import opened Snapshot
  import opened Execution

  // ----- Replaying data records -----

  /** What one record does to the database alone; `Err` when it throws or is not a data record. */
  function ReplayOne(fp: FloatText, db: Option<Db>, r: WalRecord): Result<Option<Db>> {
    if r.operation == SaveDatabaseOp then Ok(db)
    else if r.operation == CreateDatabaseOp && ' ' !in r.payload then
      if r.payload == "" then Err else Ok(Some(Db(r.payload, map[])))
    else
      var q :- Parse(fp, r.payload);
      if !Logged(q) then Err
      else
        var e := DataEffect(db, q);
        if e.outcome == Threw then Err else Ok(e.db)
  }

  function ReplayAll(fp: FloatText, db: Option<Db>, records: seq<WalRecord>): Result<Option<Db>>
    decreases |records|
  {
    if records == [] then Ok(db)
    else
      var next :- ReplayOne(fp, db, records[0]);
      ReplayAll(fp, next, records[1..])
  }

  lemma {:induction false} ReplayAllExtend(fp: FloatText, db: Option<Db>, records: seq<WalRecord>, r: WalRecord)
    requires ReplayAll(fp, db, records).Ok?
    ensures ReplayAll(fp, db, records + [r]) == ReplayOne(fp, ReplayAll(fp, db, records).value, r)
    decreases |records|
  {
    hide ReplayOne;
    if records == [] {
      assert (records + [r])[1..] == [];
    } else {
      assert (records + [r])[1..] == records[1..] + [r];
      ReplayAllExtend(fp, ReplayOne(fp, db, records[0]).value, records[1..], r);
    }
  }

  /** While replaying, a data statement changes the database and nothing else. */
  lemma ReplayedStep(fp: FloatText, st: State, q: Command)
    requires ValidState(st) && st.replaying && Logged(q)
    ensures StepUnlocked(fp, st, q) == (st.(db := DataEffect(st.db, q).db), DataEffect(st.db, q).outcome)
  {
    if q.Insert? {
      hide InsertSql;
      assert q.rows == [q.rows[0]] && q.rows[1..] == [];
      var next := st.(db := InsertEffect(st.db, q.table, q.rows).db);
      assert InsertLoop(fp, next, q.table, q.rows[1..]) == (next, Done);
      if InsertEffect(st.db, q.table, q.rows).outcome == Done {
        assert InsertLoop(fp, st, q.table, q.rows) == (next, Done);
      }
    } else {
      hide DataEffect, StatementText;
    }
  }

  /** Replaying a log that starts with records known to replay comes down to replaying the rest on their result. */
  lemma {:induction false} ReplaySplit(fp: FloatText, st: State, records: seq<WalRecord>, more: seq<WalRecord>)
    requires ValidState(st) && st.replaying && ReplayAll(fp, st.db, records).Ok?
    ensures ValidState(st.(db := ReplayAll(fp, st.db, records).value))
    ensures Replay(fp, st, records + more) == Replay(fp, st.(db := ReplayAll(fp, st.db, records).value), more)
    decreases |records|
  {
    hide Parse, StepUnlocked, DataEffect, ValidDb;
    if records == [] {
      assert records + more == more;
    } else {
      assert (records + more)[0] == records[0] && (records + more)[1..] == records[1..] + more;
      var r := records[0];
      var next := ReplayOne(fp, st.db, r).value;
      if r.operation == SaveDatabaseOp {
        ReplaySplit(fp, st, records[1..], more);
      } else if r.operation == CreateDatabaseOp && ' ' !in r.payload {
        EmptyDbIsValid(r.payload);
        ReplaySplit(fp, st.(db := next), records[1..], more);
      } else {
        var q := Parse(fp, r.payload).value;
        ReplayedStep(fp, st, q);
        StepKeepsValid(fp, st, q);
        ReplaySplit(fp, st.(db := next), records[1..], more);
      }
    }
  }

  lemma ReplayIsReplayAll(fp: FloatText, st: State, records: seq<WalRecord>)
    requires ValidState(st) && st.replaying && ReplayAll(fp, st.db, records).Ok?
    ensures Replay(fp, st, records) == st.(db := ReplayAll(fp, st.db, records).value)
  {
    hide ReplayAll;
    ReplaySplit(fp, st, records, []);
    assert records + [] == records;
  }

  lemma EmptyDbIsValid(name: string)
    requires name != ""
    ensures ValidDb(Db(name, map[]))
  {
  }

  // ----- The invariant -----

  /** The database a restart starts from. */
  function Base(disk: map<string, string>): Option<Db> {
    var loaded := LoadFirst(disk);
    if loaded.Ok? then Some(loaded.value) else None
  }

  /** The records a restart replays: with a snapshot, those after the last save record. */
  function Pending(disk: map<string, string>, records: seq<WalRecord>): seq<WalRecord> {
    if LoadFirst(disk).Ok? then records[AfterLastSave(records)..] else records
  }

  /** The log holds `records`, and replaying the pending ones on the saved database yields the live one. */
  predicate Consistent(fp: FloatText, st: State, records: seq<WalRecord>) {
    && ValidState(st) && !st.replaying
    && Holds(st.wal, records)
    && ReplayAll(fp, Base(st.disk), Pending(st.disk, records)) == Ok(st.db)
  }

  /** A restart now would rebuild the live database. */
  predicate Recovers(fp: FloatText, st: State) {
    Recover(fp, st.disk, st.wal.file).db == st.db
  }

  lemma ConsistentIsValid(fp: FloatText, st: State, records: seq<WalRecord>)
    requires Consistent(fp, st, records)
    ensures ValidState(st) && st.wal.file == EncodeAll(records) && AllFit(records)
  {
    hide ReplayAll, EncodeAll, AllFit, Pending;
  }

  lemma PendingExtend(disk: map<string, string>, records: seq<WalRecord>, r: WalRecord)
    requires r.operation != SaveDatabaseOp
    ensures Pending(disk, records + [r]) == Pending(disk, records) + [r]
  {
    hide LoadFirst;
    var start := AfterLastSave(records);
    assert (records + [r])[..|records|] == records;
    assert AfterLastSave(records + [r]) == start;
    assert (records + [r])[start..] == records[start..] + [r];
  }

  lemma PendingSave(disk: map<string, string>, records: seq<WalRecord>, r: WalRecord)
    requires r.operation == SaveDatabaseOp
    ensures Pending(disk, records + [r]) == if LoadFirst(disk).Ok? then [] else Pending(disk, records) + [r]
  {
    hide LoadFirst;
    assert AfterLastSave(records + [r]) == |records| + 1;
  }

  /** Recovery is the replay of the pending records on the saved database. */
  lemma RecoverIsReplay(fp: FloatText, disk: map<string, string>, records: seq<WalRecord>)
    requires AllFit(records)
    ensures var st := Start(disk, EncodeAll(records)).(db := Base(disk), replaying := true);
      ValidState(st) && Recover(fp, disk, EncodeAll(records)) ==
          Replay(fp, st, Pending(disk, records)).(replaying := false)
  {
    hide LoadFirst, ReadAll, EncodeAll, ReplayOne, Parse, StepUnlocked, ValidDb;
    ReadAllBack(records);
    assert records[0..] == records;
  }

  /** What a restart does with a log whose pending records replay. */
  lemma RecoverReplays(fp: FloatText, disk: map<string, string>, records: seq<WalRecord>)
    requires AllFit(records) && ReplayAll(fp, Base(disk), Pending(disk, records)).Ok?
    ensures Recover(fp, disk, EncodeAll(records))
         == Start(disk, EncodeAll(records)).(db := ReplayAll(fp, Base(disk), Pending(disk, records)).value)
  {
    hide LoadFirst, ReplayAll, ReadAll, EncodeAll, Replay, Recover, Pending, ValidDb;
    RecoverIsReplay(fp, disk, records);
    ReplayIsReplayAll(fp, Start(disk, EncodeAll(records)).(db := Base(disk), replaying := true),
        Pending(disk, records));
  }

  /** Recovery rebuilds the live database, leaves both files as they are, and so can be repeated. */
  lemma ConsistentRecovers(fp: FloatText, st: State, records: seq<WalRecord>)
    requires Consistent(fp, st, records)
    ensures Recovers(fp, st)
    ensures var again := Recover(fp, st.disk, st.wal.file);
      && Consistent(fp, again, records)
      && again == Start(st.disk, st.wal.file).(db := st.db)
      && Recover(fp, again.disk, again.wal.file) == again
  {
    hide ReplayAll, Recover, Pending;
    RecoverReplays(fp, st.disk, records);
  }

  /** An executor over an empty directory. */
  lemma FreshStartConsistent(fp: FloatText)
    ensures Consistent(fp, Recover(fp, map[], ""), [])
    ensures Recover(fp, map[], "").db == None
  {
    RecoverReplays(fp, map[], []);
  }

  /** A step that touches neither file keeps the invariant if it leaves the database as it was. */
  lemma UntouchedFiles(fp: FloatText, st: State, records: seq<WalRecord>, next: State)
    requires Consistent(fp, st, records)
    requires ValidState(next) && next.wal == st.wal && next.disk == st.disk && next.replaying == st.replaying
    ensures next.db == st.db ==> Consistent(fp, next, records)
    ensures Recovers(fp, next) <==> next.db == st.db
  {
    hide ReplayAll, Recover, Pending;
    ConsistentRecovers(fp, st, records);
  }

  // ----- Records that keep it -----

  /** Appending a record that replays to the new database keeps the invariant. */
  lemma LoggedChange(fp: FloatText, st: State, records: seq<WalRecord>, op: WalOperation, payload: string,
      db: Option<Db>)
    requires Consistent(fp, st, records)
    requires |records| + 2 < TWO_64 && |payload| < TWO_64 && !op.UnknownOp? && op != SaveDatabaseOp
    requires db.Some? ==> ValidDb(db.value)
    requires ReplayOne(fp, st.db, WalRecord(|records| + 1, op, payload)) == Ok(db)
    ensures AppendTo(st.wal, op, payload).Ok?
    ensures Consistent(fp, st.(db := db, wal := AppendTo(st.wal, op, payload).value),
        records + [WalRecord(|records| + 1, op, payload)])
  {
    hide ReplayAll, ReplayOne, Holds, AppendTo, Pending, LoadFirst;
    var r := WalRecord(|records| + 1, op, payload);
    AppendHolds(st.wal, records, op, payload);
    PendingExtend(st.disk, records, r);
    ReplayAllExtend(fp, Base(st.disk), Pending(st.disk, records), r);
  }

  lemma NameHasNoSpace(s: string)
    requires IsName(s)
    ensures ' ' !in s && s != ""
  {
    forall i | 0 <= i < |s| ensures s[i] != ' ' {
      assert IsIdentifierStart(s[i]) || IsIdentifierPart(s[i]);
    }
  }

  /** SAVE's record, written before its snapshot is published. */
  lemma SaveLogged(fp: FloatText, st: State, records: seq<WalRecord>)
    requires Consistent(fp, st, records) && |records| + 2 < TWO_64 && st.db.Some? && Short(st.db.value.name)
    ensures var logged := Log(st, SaveDatabaseOp, st.db.value.name);
      && logged.Ok? && logged.value == st.(wal := logged.value.wal)
      && Holds(logged.value.wal, records + [WalRecord(|records| + 1, SaveDatabaseOp, st.db.value.name)])
  {
    hide ReplayAll, AppendTo, Holds, Pending;
    AppendHolds(st.wal, records, SaveDatabaseOp, st.db.value.name);
  }
}
