/**
 Several saved databases: over every allowed run each file holds a database of its own name, and loading a name returns
 the database last saved under it.
 */
module SavedNames {
  import opened Results
  import opened Values
  import opened Ast
  import opened SqlText
  import opened SqlRoundTrip
  import opened Relations
  import opened WalFormat
  import opened WriteAheadLogs
  import opened Snapshot
  import opened Execution
  import opened Replays
  import opened Recovery
  import opened CrashWindows
  import opened Runs

  lemma DataKeepsDisk(fp: FloatText, st: State, q: Command)
    requires IsData(q)
    ensures DataStep(fp, st, q).0.disk == st.disk
  {
    hide DataEffect, StatementText, InsertLoop, AppendTo;
    if q.Insert? {
      InsertKeepsDisk(fp, st, q.table, q.rows);
    }
  }

  /** Only SAVE writes a file, and it writes the live database under its name. */
  lemma StepKeepsOwnNames(fp: FloatText, st: State, q: Command)
    requires ValidState(st) && OwnNames(st.disk)
    requires q.SaveDatabase? && st.db.Some? ==> Addressable(st.db.value)
    ensures OwnNames(StepUnlocked(fp, st, q).0.disk)
  {
    hide OwnNames, DataStep, ValidDb, Addressable, EncodeDb, LoadFirst, LoadNamed, AppendTo;
    if IsData(q) {
      DataKeepsDisk(fp, st, q);
    } else if q.SaveDatabase? && st.db.Some? {
      PublishKeepsOwnNames(st.disk, st.db.value);
    }
  }

  lemma EventKeepsOwnNames(fp: FloatText, depth: nat, st: State, records: seq<WalRecord>, event: RunEvent)
    requires Consistent(fp, st, records) && ValidState(st) && Allowed(fp, depth, st, records, event)
    requires OwnNames(st.disk)
    ensures OwnNames(After(fp, depth, st, event).disk)
  {
    hide Consistent, Recover, OwnNames, Submitted, StepUnlocked, CutInsert, InsideInsert, Drops, Survives, ValidDb,
        EncodeDb, AddressableTable, Displaced, LoadsOnly, AppendTo, InsertSql, StatementText, ShapedCommand, After;
    match event {
      case Submit(sql) =>
        AfterSubmit(fp, depth, st, sql);
        ConsistentRecovers(fp, st, records);
        var target := Submitted(fp, depth, st, sql);
        if target.Reached? {
          StepKeepsOwnNames(fp, st, target.q);
        }
      case Restart => RestartKeepsDisk(fp, depth, st, records);
      case SaveCrash(published) =>
        SaveCrashKeepsConsistent(fp, depth, st, records, published);
        if published && st.db.Some? {
          PublishKeepsOwnNames(st.disk, st.db.value);
        }
      case InsertCrash(sql, k) => InsertCrashKeepsRows(fp, depth, st, records, sql, k);
    }
  }

  lemma RestartKeepsDisk(fp: FloatText, depth: nat, st: State, records: seq<WalRecord>)
    requires Consistent(fp, st, records) && ValidState(st)
    ensures After(fp, depth, st, Restart).disk == st.disk
  {
    hide Consistent, Recover;
    ConsistentRecovers(fp, st, records);
  }

  /**
   After every allowed run over any number of databases, the next SAVE leaves a recoverable database exactly when no
   saved name is smaller than its own.
   */
  lemma {:induction false} NextSaveExactly(fp: FloatText, depth: nat, st: State, records: seq<WalRecord>,
      events: seq<RunEvent>)
    returns (held: seq<WalRecord>)
    requires Consistent(fp, st, records) && ValidState(st) && AllowedRun(fp, depth, st, records, events)
    requires OwnNames(st.disk)
    ensures var last := Run(fp, depth, st, events);
      && OwnNames(last.disk) && Consistent(fp, last, held)
      && (|held| + 2 < TWO_64 && last.db.Some? && Addressable(last.db.value) ==>
            (Recovers(fp, SaveStep(last).0) <==> forall n :: n in last.disk ==> !StrLess(n, last.db.value.name)))
    decreases |events|
  {
    hide Consistent, Recovers, Allowed, After, RecordsAfter, ValidState, OwnNames, SaveStep, Addressable, StrLess;
    if events == [] {
      held := records;
      if |held| + 2 < TWO_64 && st.db.Some? && Addressable(st.db.value) {
        SaveKeepsExactly(fp, st, records);
      }
    } else {
      EventKeepsConsistent(fp, depth, st, records, events[0]);
      EventKeepsOwnNames(fp, depth, st, records, events[0]);
      held := NextSaveExactly(fp, depth, After(fp, depth, st, events[0]),
          RecordsAfter(fp, depth, st, records, events[0]), events[1..]);
    }
  }

  // ----- LOAD -----

  /** The database the event saves, if it is a SAVE that gets as far as publishing its file. */
  function SavedBy(fp: FloatText, depth: nat, st: State, event: RunEvent): Option<Db> {
    match event
    case Submit(sql) => if Submitted(fp, depth, st, sql) == Reached(SaveDatabase) then st.db else None
    case SaveCrash(published) => if published then st.db else None
    case _ => None
  }

  /** The database last saved under a name in a run. */
  function LastSaved(fp: FloatText, depth: nat, st: State, events: seq<RunEvent>, name: string): Option<Db>
    requires ValidState(st)
    decreases |events|
  {
    if events == [] then None
    else
      var later := LastSaved(fp, depth, After(fp, depth, st, events[0]), events[1..], name);
      var now := SavedBy(fp, depth, st, events[0]);
      if later.Some? then later else if now.Some? && now.value.name == name then now else None
  }

  lemma StepFiles(fp: FloatText, st: State, records: seq<WalRecord>, q: Command)
    requires Consistent(fp, st, records) && ValidState(st) && Expressible(fp, st, records, q)
    ensures StepUnlocked(fp, st, q).0.disk ==
      if q.SaveDatabase? && st.db.Some? then st.disk[st.db.value.name := EncodeDb(st.db.value)] else st.disk
  {
    hide Consistent, DataStep, SaveStep, ValidDb, AddressableTable, EncodeDb, LoadFirst, LoadNamed, AppendTo,
        ShapedCommand, StatementText, InsertSql;
    if IsData(q) {
      DataKeepsDisk(fp, st, q);
    } else if q.SaveDatabase? {
      SaveFiles(fp, st, records);
    }
  }

  lemma SaveFiles(fp: FloatText, st: State, records: seq<WalRecord>)
    requires Consistent(fp, st, records) && ValidState(st) && |records| + 2 < TWO_64
    requires st.db.Some? ==> Addressable(st.db.value)
    ensures SaveStep(st).0.disk ==
      if st.db.Some? then st.disk[st.db.value.name := EncodeDb(st.db.value)] else st.disk
  {
    hide Consistent, ValidDb, AddressableTable, EncodeDb, Log;
    if st.db.Some? {
      SaveStepIs(fp, st, records);
    }
  }

  /** An event changes no file but that of the database it saves. */
  lemma EventFiles(fp: FloatText, depth: nat, st: State, records: seq<WalRecord>, event: RunEvent)
    requires Consistent(fp, st, records) && ValidState(st) && Allowed(fp, depth, st, records, event)
    ensures var saved := SavedBy(fp, depth, st, event);
      && (saved.Some? ==> saved == st.db && Addressable(saved.value) && ValidDb(saved.value))
      && After(fp, depth, st, event).disk ==
           if saved.Some? then st.disk[saved.value.name := EncodeDb(saved.value)] else st.disk
  {
    hide Consistent, Recover, Submitted, StepUnlocked, CutInsert, InsideInsert, Drops, Survives, ValidDb, EncodeDb,
        AddressableTable, Displaced, LoadsOnly, AppendTo, InsertSql, StatementText, ShapedCommand, After;
    match event {
      case Submit(sql) =>
        AfterSubmit(fp, depth, st, sql);
        ConsistentRecovers(fp, st, records);
        var target := Submitted(fp, depth, st, sql);
        if target.Reached? {
          StepFiles(fp, st, records, target.q);
        }
      case Restart => RestartKeepsDisk(fp, depth, st, records);
      case SaveCrash(published) =>
        SaveCrashKeepsConsistent(fp, depth, st, records, published);
        if st.db.Some? {
          SaveLogged(fp, st, records);
        }
      case InsertCrash(sql, k) => InsertCrashKeepsRows(fp, depth, st, records, sql, k);
    }
  }

  /** A saved database is read back from its file, and the other files read as before. */
  lemma PublishedReads(disk: map<string, string>, db: Db, name: string)
    requires ValidDb(db) && Addressable(db)
    ensures LoadNamed(disk[db.name := EncodeDb(db)], name) == if name == db.name then Ok(db) else LoadNamed(disk, name)
  {
    hide DecodeDb, EncodeDb, ValidDb, Addressable;
    SnapshotRoundTrip(db);
  }

  /**
   Over every allowed run, on any number of databases and through restarts and crashes, LOAD DATABASE of a name opens
   the database last saved under it; of a name not saved in the run, what its file held before.
   */
  lemma {:induction false} LoadReturnsLastSaved(fp: FloatText, depth: nat, st: State, records: seq<WalRecord>,
      events: seq<RunEvent>, name: string)
    requires Consistent(fp, st, records) && ValidState(st) && AllowedRun(fp, depth, st, records, events)
    ensures var saved := LastSaved(fp, depth, st, events, name);
      Loaded(Run(fp, depth, st, events), Some(name)) ==
        if saved.Some? then Ok(saved.value) else Loaded(st, Some(name))
    decreases |events|
  {
    hide Consistent, Allowed, After, RecordsAfter, ValidState, LoadNamed, EncodeDb, Addressable, ValidDb, SavedBy;
    if events != [] {
      EventKeepsConsistent(fp, depth, st, records, events[0]);
      EventFiles(fp, depth, st, records, events[0]);
      var next := After(fp, depth, st, events[0]);
      LoadReturnsLastSaved(fp, depth, next, RecordsAfter(fp, depth, st, records, events[0]), events[1..], name);
      var saved := SavedBy(fp, depth, st, events[0]);
      if saved.Some? {
        PublishedReads(st.disk, saved.value, name);
      }
    }
  }

  /** LOAD DATABASE without a name opens the file of the open database; with a name, the file of that name. */
  lemma LoadOpens(fp: FloatText, st: State, source: Option<string>, db: Db)
    requires ValidState(st) && ValidDb(db) && Addressable(db)
    requires var name := if source.Some? then source.value else if st.db.Some? then st.db.value.name else "";
      name == db.name && name in st.disk && st.disk[name] == EncodeDb(db)
    ensures StepUnlocked(fp, st, LoadDatabase(source)) == (st.(db := Some(db), snapshot := None), Done)
  {
    hide DecodeDb, EncodeDb, Addressable, LoadFirst;
    SnapshotRoundTrip(db);
  }
}
