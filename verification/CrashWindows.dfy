/** Crashes inside SAVE and torn log writes. */
module CrashWindows {
  import opened Results
  import opened Values
  import opened SqlText
  import opened Relations
  import opened WalFormat
  import opened WriteAheadLogs
  import opened Snapshot
  import opened Execution
  import opened Replays
  import opened Recovery

  /** A restart loads this database, or finds no file that decodes where it looks and starts from the log alone. */
  predicate LoadsOnly(disk: map<string, string>, db: Db) {
    LoadFirst(disk).Err? || LoadFirst(disk) == Ok(db)
  }

  /** SAVE's record at the end of the log, on whatever file it met: with a file to load, nothing is replayed on it. */
  lemma AfterSaveRecord(fp: FloatText, st: State, records: seq<WalRecord>, next: State)
    requires Consistent(fp, st, records) && |records| + 2 < TWO_64 && st.db.Some? && Short(st.db.value.name)
    requires var logged := Log(st, SaveDatabaseOp, st.db.value.name);
      logged.Ok? && next == logged.value.(disk := next.disk)
    requires LoadFirst(next.disk).Err? ==> LoadFirst(st.disk).Err?
    ensures var r := WalRecord(|records| + 1, SaveDatabaseOp, st.db.value.name);
      && (LoadsOnly(next.disk, st.db.value) ==> Consistent(fp, next, records + [r]))
      && (Recovers(fp, next) <==> LoadsOnly(next.disk, st.db.value))
  {
    hide LoadFirst, Log, ReplayAll, Recover, Holds, Pending, ValidDb, EncodeAll;
    var r := WalRecord(|records| + 1, SaveDatabaseOp, st.db.value.name);
    SaveLogged(fp, st, records);
    PendingSave(next.disk, records, r);
    if LoadFirst(next.disk).Err? {
      SamePending(st.disk, next.disk, records);
      ReplayAllExtend(fp, Base(next.disk), Pending(next.disk, records), r);
    } else {
      NothingPending(fp, Base(next.disk));
    }
    LogHolds(next.wal, records + [r]);
    RecoverReplays(fp, next.disk, records + [r]);
  }

  lemma SamePending(a: map<string, string>, b: map<string, string>, records: seq<WalRecord>)
    requires LoadFirst(a).Err? && LoadFirst(b).Err?
    ensures Base(a) == Base(b) && Pending(a, records) == Pending(b, records)
  {
    hide LoadFirst;
  }

  lemma NothingPending(fp: FloatText, db: Option<Db>)
    ensures ReplayAll(fp, db, []) == Ok(db)
  {
  }

  lemma LogHolds(w: Wal, records: seq<WalRecord>)
    requires Holds(w, records)
    ensures w.file == EncodeAll(records) && AllFit(records)
  {
  }

  /** A smaller name than the database's is saved, and the file with the smallest holds another database. */
  predicate Displaced(disk: map<string, string>, db: Db) {
    exists first :: first in disk && IsFirst(disk, first) && StrLess(first, db.name) && DecodeDb(disk[first]).Ok?
        && DecodeDb(disk[first]) != Ok(db)
  }

  /** Publishing never takes away a file to load, and what is then loaded is the snapshot unless it is displaced. */
  lemma PublishedLoads(disk: map<string, string>, db: Db)
    requires ValidDb(db) && Addressable(db)
    ensures LoadFirst(disk[db.name := EncodeDb(db)]).Err? ==> LoadFirst(disk).Err?
    ensures LoadsOnly(disk[db.name := EncodeDb(db)], db) <==> !Displaced(disk, db)
  {
    hide DecodeDb, EncodeDb, ValidDb, Addressable, LoadFirst, StrLess;
    var saved := disk[db.name := EncodeDb(db)];
    SnapshotRoundTrip(db);
    StrOrder();
    assert db.name in saved;
    var first := FirstIsLoaded(saved);
    if first != db.name {
      assert IsFirst(disk, first);
      var least := FirstIsLoaded(disk);
      FirstIsUnique(disk, first, least);
    }
    forall other | IsFirst(disk, other) && StrLess(other, db.name) ensures other == first {
      assert IsFirst(saved, other);
      FirstIsUnique(saved, first, other);
    }
  }

  /**
   A crash after the snapshot is published and before the log is emptied loses nothing, and the files keep the
   invariant: they are those of a live executor holding the saved database. Only another file that is loaded first
   spoils it; one that is looked at first and does not decode sends the restart to the whole log, which still has it
   all.
   */
  lemma CrashAfterPublish(fp: FloatText, st: State, records: seq<WalRecord>)
    requires Consistent(fp, st, records) && |records| + 2 < TWO_64 && st.db.Some? && Short(st.db.value.name)
    requires Addressable(st.db.value)
    ensures Log(st, SaveDatabaseOp, st.db.value.name).Ok?
    ensures var published := Publish(Log(st, SaveDatabaseOp, st.db.value.name).value);
      && (!Displaced(st.disk, st.db.value) ==>
            Consistent(fp, published, records + [WalRecord(|records| + 1, SaveDatabaseOp, st.db.value.name)]))
      && (Recovers(fp, published) <==> !Displaced(st.disk, st.db.value))
  {
    hide LoadFirst, EncodeDb, Log, ReplayAll, Recover, Holds, Pending, ValidDb, AddressableTable, Displaced,
        LoadsOnly;
    SaveLogged(fp, st, records);
    PublishedLoads(st.disk, st.db.value);
    AfterSaveRecord(fp, st, records, Publish(Log(st, SaveDatabaseOp, st.db.value.name).value));
  }

  /**
   A crash between SAVE's log record and its snapshot recovers exactly when no older snapshot hides the changes since
   it.
   */
  lemma CrashBeforePublish(fp: FloatText, st: State, records: seq<WalRecord>)
    requires Consistent(fp, st, records) && |records| + 2 < TWO_64 && st.db.Some? && Short(st.db.value.name)
    ensures Log(st, SaveDatabaseOp, st.db.value.name).Ok?
    ensures var logged := Log(st, SaveDatabaseOp, st.db.value.name).value;
      && (LoadsOnly(st.disk, st.db.value) ==>
            Consistent(fp, logged, records + [WalRecord(|records| + 1, SaveDatabaseOp, st.db.value.name)]))
      && (Recovers(fp, logged) <==> LoadsOnly(st.disk, st.db.value))
  {
    hide LoadFirst, Log, ReplayAll, Recover, Holds, Pending, ValidDb;
    SaveLogged(fp, st, records);
    AfterSaveRecord(fp, st, records, Log(st, SaveDatabaseOp, st.db.value.name).value);
  }

  /**
   A log torn inside a record is rejected whole: the restart falls back to the snapshot and drops every logged change.
   */
  lemma TornRecovery(fp: FloatText, disk: map<string, string>, records: seq<WalRecord>, n: nat)
    requires AllFit(records) && n <= |EncodeAll(records)|
    requires forall k :: 0 <= k <= |records| ==> EncodeAll(records[..k]) != EncodeAll(records)[..n]
    ensures Recover(fp, disk, EncodeAll(records)[..n]).db == Base(disk)
  {
    hide ReadAll, LoadFirst, EncodeAll, Replay;
    TornLog(records, n);
  }
}
