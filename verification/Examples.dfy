/**
 Concrete statements, files and printed doubles after which a restart, or a ROLLBACK, is not what one would expect.
 */
module Examples {
  import opened Results
  import opened Values
  import opened Ast
  import opened Lexer
  import opened SqlText
  import opened Grammar
  import opened LiteralText
  import opened SqlRoundTrip
  import opened Prepared
  import opened Relations
  import opened WalFormat
  import opened WriteAheadLogs
  import opened Snapshot
  import opened Transactions
  import opened Execution
  import opened Replays
  import opened Doubles
  import opened Recovery
  import opened CrashWindows
  import opened Runs
  import opened Coherence

  // ----- ROLLBACK and half-way statements -----

  const INT_COLUMN := Column("a", IntType, false)
  const EMPTY_T := TableV("t", [INT_COLUMN], [], map[])
  const ONE_ROW_T := TableV("t", [INT_COLUMN], [[Int(1)]], map[])

  lemma ShortTexts(fp: FloatText)
    ensures Short(StatementText(fp, CreateTable("t", [INT_COLUMN])))
    ensures Short(InsertSql(fp, "t", [Int(1)]))
  {
    var column := ColumnTexts([INT_COLUMN]);
    assert CommaList(column) == column[0];
    var literal := Literals(fp, [Int(1)]);
    assert CommaList(literal) == literal[0] && literal[0] == IntText(1) && |Digits(1)| == 1;
  }

  const EMPTY_D := Db("d", map["t" := EMPTY_T])
  const ONE_ROW_D := Db("d", map["t" := ONE_ROW_T])

  /** The log of CREATE DATABASE d; CREATE TABLE t (a INT); BEGIN; INSERT INTO t VALUES (1). */
  function ExampleRecords(fp: FloatText): seq<WalRecord> {
    [WalRecord(1, CreateDatabaseOp, "d"),
     WalRecord(2, CreateTableOp, StatementText(fp, CreateTable("t", [INT_COLUMN]))),
     WalRecord(3, InsertOp, StatementText(fp, Insert("t", [[Int(1)]])))]
  }

  /** The executor after these statements. */
  function ExampleState(fp: FloatText): State {
    State(Some(ONE_ROW_D), Some(EMPTY_D), Some(1), Manager(2, map[1 := Active]), map[],
          Wal(EncodeAll(ExampleRecords(fp)), Some(4)), map[], false)
  }

  lemma ExampleEffects()
    ensures DataEffect(Some(Db("d", map[])), CreateTable("t", [INT_COLUMN])) == Effect(Some(EMPTY_D), Done, true)
    ensures DataEffect(Some(EMPTY_D), Insert("t", [[Int(1)]])) == Effect(Some(ONE_ROW_D), Done, true)
  {
    assert ValidRow([INT_COLUMN], [Int(1)]);
    assert EMPTY_T.rows + [[Int(1)]] == [[Int(1)]];
    assert map["t" := EMPTY_T]["t" := ONE_ROW_T] == map["t" := ONE_ROW_T];
  }

  lemma ExampleReplays(fp: FloatText)
    ensures ReplayAll(fp, None, ExampleRecords(fp)) == Ok(Some(ONE_ROW_D))
  {
    hide StatementText, DataEffect, Parse, NamedCommand, LiteralsReread, ReplayOne;
    var q2, q3 := CreateTable("t", [INT_COLUMN]), Insert("t", [[Int(1)]]);
    var rs := ExampleRecords(fp);
    var d: Option<Db> := Some(Db("d", map[]));
    ExampleEffects();
    ExampleStatements(fp);
    FirstRecord(fp);
    RereadingReplays(fp, d, q2, 2);
    RereadingReplays(fp, Some(EMPTY_D), q3, 3);
    ReplayThree(fp, None, rs[0], d, rs[1], Some(EMPTY_D), rs[2], Some(ONE_ROW_D));
  }

  lemma FirstRecord(fp: FloatText)
    ensures ReplayOne(fp, None, WalRecord(1, CreateDatabaseOp, "d")) == Ok(Some(Db("d", map[])))
  {
    hide Parse;
  }

  lemma ExampleStatements(fp: FloatText)
    ensures var q2, q3 := CreateTable("t", [INT_COLUMN]), Insert("t", [[Int(1)]]);
      NamedCommand(q2) && LiteralsReread(fp, q2) && NamedCommand(q3) && LiteralsReread(fp, q3)
  {
  }

  lemma ReplayThree(fp: FloatText, d0: Option<Db>, a: WalRecord, d1: Option<Db>, b: WalRecord, d2: Option<Db>,
      c: WalRecord, d3: Option<Db>)
    requires ReplayOne(fp, d0, a) == Ok(d1) && ReplayOne(fp, d1, b) == Ok(d2) && ReplayOne(fp, d2, c) == Ok(d3)
    ensures ReplayAll(fp, d0, [a, b, c]) == Ok(d3)
  {
    hide ReplayOne;
    assert ReplayAll(fp, d0, [a]) == Ok(d1);
    ReplayAllExtend(fp, d0, [a], b);
    ReplayAllExtend(fp, d0, [a] + [b], c);
    assert [a] + [b] + [c] == [a, b, c];
  }

  lemma ExampleConsistent(fp: FloatText)
    ensures Consistent(fp, ExampleState(fp), ExampleRecords(fp))
  {
    hide ReplayAll, EncodeAll;
    ShortTexts(fp);
    ExampleReplays(fp);
    assert ValidRow([INT_COLUMN], [Int(1)]);
    assert ColumnIndexFrom([INT_COLUMN], "a", 0) == Some(0);
    assert Base(map[]) == None;
  }

  /** BEGIN; INSERT; ROLLBACK undoes the insert in memory only: a restart brings the row back. */
  lemma RollbackLosesExample(fp: FloatText)
    ensures Recovers(fp, ExampleState(fp))
    ensures RollbackStep(ExampleState(fp)).0.db == Some(EMPTY_D)
    ensures !Recovers(fp, RollbackStep(ExampleState(fp)).0)
  {
    hide Consistent, Recovers, ExampleRecords, EncodeAll, StatementText, ValidDb;
    ExampleConsistent(fp);
    ConsistentRecovers(fp, ExampleState(fp), ExampleRecords(fp));
    assert EMPTY_D.tables["t"].rows != ONE_ROW_D.tables["t"].rows;
    ControlStep(fp, ExampleState(fp), ExampleRecords(fp), Rollback);
  }

  /**
   UPDATE t SET a = 2 WHERE a = 1 OR missing = 3 on rows (1), (5): the first row changes, the second throws, nothing is
   logged.
   */
  lemma HalfUpdateExample()
    ensures var t := TableV("t", [INT_COLUMN], [[Int(1)], [Int(5)]], map[]);
      var where := Or(Comparison("a", EqualTo, Int(1)), Comparison("missing", EqualTo, Int(3)));
      var q := Update("t", "a", Int(2), Some(where));
      var e := DataEffect(Some(Db("d", map["t" := t])), q);
      && HalfUpdated(Some(Db("d", map["t" := t])), q)
      && e.outcome == Threw && !e.logged
      && e.db == Some(Db("d", map["t" := t.(rows := [[Int(2)], [Int(5)]])]))
  {
    var schema := [INT_COLUMN];
    var rows: seq<Row> := [[Int(1)], [Int(5)]];
    var where := Some(Or(Comparison("a", EqualTo, Int(1)), Comparison("missing", EqualTo, Int(3))));
    assert schema[0].name == "a";
    assert ColumnIndex(schema, "a") == Some(0);
    assert |"missing"| != |"a"|;
    assert ColumnIndex(schema, "missing") == None;
    var left, right := where.value.left, where.value.right;
    assert Matches(schema, rows[0], left) == Ok(true) && Matches(schema, rows[1], left) == Ok(false);
    assert Matches(schema, rows[1], right) == Err;
    assert MatchesWhere(schema, rows[0], where) == Ok(true);
    assert MatchesWhere(schema, rows[1], where) == Err;
    var next := rows[0 := [Int(2)]];
    assert next == [[Int(2)], [Int(5)]];
    assert Assign(rows[0], 0, Int(2)) == [Int(2)];
    assert UpdateFrom(schema, next, 0, Int(2), where, 1) == Changed(next, 0, true);
    assert UpdateStop(schema, rows, 0, Int(2), where, 1) == 1;
    var t := TableV("t", schema, rows, map[]);
    assert map["t" := t]["t" := t.(rows := next)] == map["t" := t.(rows := next)];
  }

  /**
   DELETE FROM t WHERE a = 1 OR missing = 3 on rows (5), (1): the last row goes, the first throws, nothing is logged.
   */
  lemma HalfDeleteExample()
    ensures var t := TableV("t", [INT_COLUMN], [[Int(5)], [Int(1)]], map[]);
      var q := Delete("t", Some(Or(Comparison("a", EqualTo, Int(1)), Comparison("missing", EqualTo, Int(3)))));
      var e := DataEffect(Some(Db("d", map["t" := t])), q);
      && HalfDeleted(Some(Db("d", map["t" := t])), q)
      && e == Effect(Some(Db("d", map["t" := t.(rows := [[Int(5)]])])), Threw, false)
  {
    var schema := [INT_COLUMN];
    var rows: seq<Row> := [[Int(5)], [Int(1)]];
    var where := Some(Or(Comparison("a", EqualTo, Int(1)), Comparison("missing", EqualTo, Int(3))));
    assert schema[0].name == "a";
    assert |"missing"| != |"a"|;
    assert ColumnIndex(schema, "missing") == None;
    var left, right := where.value.left, where.value.right;
    assert Matches(schema, rows[1], left) == Ok(true) && Matches(schema, rows[0], left) == Ok(false);
    assert Matches(schema, rows[0], right) == Err;
    assert MatchesWhere(schema, rows[1], where) == Ok(true) && MatchesWhere(schema, rows[0], where) == Err;
    var next := rows[..1] + rows[2..];
    assert next == [[Int(5)]];
    assert DeleteFrom(schema, next, where, 1) == Changed(next, 0, true);
    assert DeleteStop(schema, rows, where, 1) == 1;
    var t := TableV("t", schema, rows, map[]);
    assert map["t" := t]["t" := t.(rows := next)] == map["t" := t.(rows := next)];
  }

  // ----- An older snapshot -----

  /** The state after CREATE DATABASE d; CREATE TABLE t (a INT); SAVE DATABASE; INSERT INTO t VALUES (1). */
  function SavedRecords(fp: FloatText): (rs: seq<WalRecord>)
    ensures |rs| == 1
  {
    [WalRecord(1, InsertOp, StatementText(fp, Insert("t", [[Int(1)]])))]
  }

  function SavedState(fp: FloatText): State {
    ExampleDatabases();
    State(Some(ONE_ROW_D), None, None, NO_TRANSACTIONS, map[], Wal(EncodeAll(SavedRecords(fp)), Some(2)),
          map["d" := EncodeDb(EMPTY_D)], false)
  }

  lemma ExampleDatabases()
    ensures ValidDb(EMPTY_D) && Addressable(EMPTY_D) && ValidDb(ONE_ROW_D) && Addressable(ONE_ROW_D)
    ensures EMPTY_D != ONE_ROW_D
  {
    assert ValidRow([INT_COLUMN], [Int(1)]);
    assert ColumnIndexFrom([INT_COLUMN], "a", 0) == Some(0);
    assert EMPTY_D.tables["t"].rows != ONE_ROW_D.tables["t"].rows;
  }

  /** The only saved file is the one a restart loads. */
  lemma OnlyFileLoads(db: Db)
    requires ValidDb(db) && Addressable(db)
    ensures LoadFirst(map[db.name := EncodeDb(db)]) == Ok(db)
    ensures LoadNamed(map[db.name := EncodeDb(db)], db.name) == Ok(db)
  {
    hide DecodeDb, EncodeDb, ValidDb, Addressable, LoadFirst, StrLess;
    SnapshotRoundTrip(db);
    var disk := map[db.name := EncodeDb(db)];
    assert db.name in disk;
    var first := FirstIsLoaded(disk);
  }

  lemma SavedReplays(fp: FloatText)
    ensures ReplayAll(fp, Some(EMPTY_D), SavedRecords(fp)) == Ok(Some(ONE_ROW_D))
  {
    hide StatementText, DataEffect, Parse, NamedCommand, LiteralsReread, ReplayOne;
    ExampleEffects();
    ExampleStatements(fp);
    RereadingReplays(fp, Some(EMPTY_D), Insert("t", [[Int(1)]]), 1);
    assert SavedRecords(fp)[1..] == [];
  }

  lemma OnePending(disk: map<string, string>, r: WalRecord)
    requires r.operation != SaveDatabaseOp
    ensures Pending(disk, [r]) == [r]
  {
    hide LoadFirst;
    var rs := [r];
    assert rs[..0] == [] && AfterLastSave(rs) == 0;
    assert rs[0..] == rs;
  }

  lemma SavedConsistent(fp: FloatText)
    ensures Consistent(fp, SavedState(fp), SavedRecords(fp))
    ensures LoadFirst(SavedState(fp).disk) == Ok(EMPTY_D)
    ensures LoadNamed(SavedState(fp).disk, "d") == Ok(EMPTY_D)
  {
    hide LoadFirst, InsertSql, ReplayAll, EncodeDb, Addressable, ValidDb, EncodeAll, Pending, LoadNamed;
    ExampleDatabases();
    OnlyFileLoads(EMPTY_D);
    OnePending(SavedState(fp).disk, SavedRecords(fp)[0]);
    SavedReplays(fp);
    ShortTexts(fp);
  }

  /** LOAD DATABASE goes back to the snapshot in memory only: a restart has the row again. */
  lemma LoadLosesExample(fp: FloatText)
    ensures Recovers(fp, SavedState(fp))
    ensures LoadStep(SavedState(fp), None) == (SavedState(fp).(db := Some(EMPTY_D)), Done)
    ensures !Recovers(fp, LoadStep(SavedState(fp), None).0)
  {
    hide Consistent, Recovers, SavedRecords, EncodeAll, StatementText, ValidDb, EncodeDb, LoadFirst, LoadNamed;
    SavedConsistent(fp);
    ExampleDatabases();
    ConsistentRecovers(fp, SavedState(fp), SavedRecords(fp));
    ControlStep(fp, SavedState(fp), SavedRecords(fp), LoadDatabase(None));
  }

  /** A crash between the record of a second SAVE and its snapshot loses the row: a restart skips the row's record. */
  lemma SaveCrashLosesExample(fp: FloatText)
    ensures Log(SavedState(fp), SaveDatabaseOp, "d").Ok?
    ensures var logged := Log(SavedState(fp), SaveDatabaseOp, "d").value;
      Recover(fp, logged.disk, logged.wal.file).db == Some(EMPTY_D) && !Recovers(fp, logged)
  {
    hide Consistent, Recover, SavedRecords, EncodeAll, StatementText, ValidDb, EncodeDb, LoadFirst, Log, Pending,
        ReplayAll, Holds;
    SavedConsistent(fp);
    ExampleDatabases();
    var st, r := SavedState(fp), WalRecord(2, SaveDatabaseOp, "d");
    SaveLogged(fp, st, SavedRecords(fp));
    LogHolds(Log(st, SaveDatabaseOp, "d").value.wal, SavedRecords(fp) + [r]);
    PendingSave(st.disk, SavedRecords(fp), r);
    NothingPending(fp, Some(EMPTY_D));
    RecoverReplays(fp, st.disk, SavedRecords(fp) + [r]);
  }

  // ----- Two saved databases -----

  const FIRST_D := Db("a", map[])
  const SECOND_D := Db("b", map[])

  /** The state after CREATE DATABASE a; SAVE DATABASE; CREATE DATABASE b. */
  function TwoNamesState(): State {
    State(Some(SECOND_D), None, None, NO_TRANSACTIONS, map[],
          Wal(EncodeAll([WalRecord(1, CreateDatabaseOp, "b")]), Some(2)), map["a" := EncodeDb(FIRST_D)], false)
  }

  lemma SecondDatabaseReplays(fp: FloatText)
    ensures ReplayAll(fp, Some(FIRST_D), [WalRecord(1, CreateDatabaseOp, "b")]) == Ok(Some(SECOND_D))
  {
    hide Parse;
    var rs := [WalRecord(1, CreateDatabaseOp, "b")];
    assert rs[1..] == [];
    assert ReplayOne(fp, Some(FIRST_D), rs[0]) == Ok(Some(SECOND_D));
  }

  lemma TwoNamesConsistent(fp: FloatText)
    ensures Consistent(fp, TwoNamesState(), [WalRecord(1, CreateDatabaseOp, "b")])
  {
    hide LoadFirst, ReplayAll, EncodeAll, EncodeDb, Pending, LoadNamed, AddressableTable;
    OnlyFileLoads(FIRST_D);
    OnePending(TwoNamesState().disk, WalRecord(1, CreateDatabaseOp, "b"));
    SecondDatabaseReplays(fp);
  }

  /** SAVE DATABASE of `b` then reports success, empties the log, and the restart opens `a`. */
  lemma HiddenSaveExample(fp: FloatText)
    ensures Recovers(fp, TwoNamesState())
    ensures SaveStep(TwoNamesState()).1 == Done && SaveStep(TwoNamesState()).0.wal == EMPTY_WAL
    ensures !Recovers(fp, SaveStep(TwoNamesState()).0)
  {
    hide Consistent, Recovers, EncodeAll, EncodeDb, LoadFirst, DecodeDb, SaveStep, OwnNames, StrLess, AddressableTable;
    var rs := [WalRecord(1, CreateDatabaseOp, "b")];
    TwoNamesConsistent(fp);
    ConsistentRecovers(fp, TwoNamesState(), rs);
    SaveStepIs(fp, TwoNamesState(), rs);
    SmallerName();
    SaveKeepsExactly(fp, TwoNamesState(), rs);
    SaveSucceeds(fp, TwoNamesState(), rs);
  }

  lemma SmallerName()
    ensures StrLess("a", "b") && "a" in TwoNamesState().disk && OwnNames(TwoNamesState().disk)
  {
    hide EncodeDb, EncodeAll, DecodeDb, AddressableTable;
    SnapshotRoundTrip(FIRST_D);
  }

  lemma SaveSucceeds(fp: FloatText, st: State, records: seq<WalRecord>)
    requires Consistent(fp, st, records) && |records| + 2 < TWO_64 && st.db.Some? && Short(st.db.value.name)
    ensures SaveStep(st).1 == Done
  {
    hide LoadFirst, EncodeDb, Log, ReplayAll, ValidDb, Holds, Pending;
    SaveLogged(fp, st, records);
  }

  // ----- A torn log -----

  /**
   The last byte of the third record is missing. Its two predecessors are whole and would give table t; the restart has
   no database at all.
   */
  lemma TornLogExample(fp: FloatText)
    ensures var file := EncodeAll(ExampleRecords(fp));
      Recover(fp, map[], file[..|file| - 1]).db == None
    ensures Recover(fp, map[], EncodeAll(ExampleRecords(fp)[..2])).db == Some(EMPTY_D)
  {
    hide EncodeRecord, StatementText, Recover, ReplayAll, Consistent, ExampleState, Pending;
    var rs := ExampleRecords(fp);
    var file := EncodeAll(rs);
    EncodedLengths(rs[0], rs[1], rs[2]);
    assert rs == [rs[0], rs[1], rs[2]];
    ExampleConsistent(fp);
    ConsistentIsValid(fp, ExampleState(fp), rs);
    forall k | 0 <= k <= |rs| ensures EncodeAll(rs[..k]) != file[..|file| - 1] {
      assert rs[..0] == [] && rs[..1] == [rs[0]] && rs[..2] == [rs[0], rs[1]] && rs[..3] == rs;
    }
    TornRecovery(fp, map[], rs, |file| - 1);
    TwoRecordsReplay(fp);
    RecoverReplays(fp, map[], rs[..2]);
  }

  lemma EncodedLengths(a: WalRecord, b: WalRecord, c: WalRecord)
    ensures |EncodeAll([])| == 0 && |EncodeAll([a])| == |EncodeRecord(a)|
    ensures |EncodeAll([a, b])| == |EncodeRecord(a)| + |EncodeRecord(b)|
    ensures |EncodeAll([a, b, c])| == |EncodeRecord(a)| + |EncodeRecord(b)| + |EncodeRecord(c)|
    ensures |EncodeRecord(a)| > 1 && |EncodeRecord(b)| > 1 && |EncodeRecord(c)| > 1
  {
    hide EncodeRecord;
    assert [a, b, c][1..] == [b, c] && [a, b][1..] == [b] && [b, c][1..] == [c] && [a][1..] == [] && [c][1..] == [];
    assert [b][1..] == [];
    assert EncodeAll([a, b, c]) == EncodeRecord(a) + EncodeAll([b, c]);
  }

  lemma TwoRecordsReplay(fp: FloatText)
    ensures ReplayAll(fp, Base(map[]), Pending(map[], ExampleRecords(fp)[..2])) == Ok(Some(EMPTY_D))
  {
    hide StatementText, DataEffect, Parse, NamedCommand, LiteralsReread, ReplayOne;
    var q, rs := CreateTable("t", [INT_COLUMN]), ExampleRecords(fp);
    ExampleEffects();
    ExampleStatements(fp);
    FirstRecord(fp);
    RereadingReplays(fp, Some(Db("d", map[])), q, 2);
    assert ReplayAll(fp, None, [rs[0]]) == Ok(Some(Db("d", map[])));
    ReplayAllExtend(fp, None, [rs[0]], rs[1]);
    assert rs[..2] == [rs[0]] + [rs[1]];
  }

  // ----- Doubles -----

  /** The state after SAVE DATABASE of the only database. */
  function JustSaved(db: Db): State
    requires ValidDb(db)
  {
    State(Some(db), None, None, NO_TRANSACTIONS, map[], EMPTY_WAL, map[db.name := EncodeDb(db)], false)
  }

  lemma JustSavedConsistent(fp: FloatText, db: Db)
    requires ValidDb(db) && Addressable(db)
    ensures Consistent(fp, JustSaved(db), [])
  {
    hide LoadFirst, EncodeDb, ValidDb, Addressable, ReplayAll, Consistent;
    OnlyFileLoads(db);
    EmptyLog(fp, JustSaved(db));
  }

  const DOUBLE_COLUMN := Column("x", DoubleType, true)
  const ONE: Word64 := 0x3FF0_0000_0000_0000

  /** Prints every double as 1.0 is printed. */
  const WITHOUT_POINT := FloatText((bits: Word64) => "1", (text: string) => None)

  const DOUBLES_D := Db("d", map["t" := TableV("t", [DOUBLE_COLUMN], [], map[])])

  lemma DoublesDatabase()
    ensures ValidDb(DOUBLES_D) && Addressable(DOUBLES_D)
    ensures forall bits :: ValidRows([DOUBLE_COLUMN], [[Dbl(bits)]])
    ensures !ValidRows([DOUBLE_COLUMN], [[Int(1)]])
  {
    assert forall bits :: ValidRow([DOUBLE_COLUMN], [Dbl(bits)]);
    assert [[Int(1)]][0] == [Int(1)] && [Int(1)][0] == Int(1) && !FitsColumn(DOUBLE_COLUMN, Int(1));
    assert !ValidRow([DOUBLE_COLUMN], [[Int(1)]][0]);
  }

  lemma OneReadsAsInteger()
    ensures ShapedRow(WITHOUT_POINT, [Dbl(ONE)])
    ensures RowsReadAs(WITHOUT_POINT, [[Dbl(ONE)]]) == Ok([[Int(1)]])
    ensures |InsertSql(WITHOUT_POINT, "t", [Dbl(ONE)])| < TWO_64
  {
    var row: Row := [Dbl(ONE)];
    IntRoundTrip(1);
    assert IntText(1) == "1";
    assert ReadAs(WITHOUT_POINT, row[0]) == Ok(Int(1));
    assert RowReadAs(WITHOUT_POINT, row[1..]) == Ok([]);
    assert RowReadAs(WITHOUT_POINT, row) == Ok([Int(1)] + []);
    assert [row][1..] == [] && RowsReadAs(WITHOUT_POINT, [row][1..]) == Ok([]);
    assert [Int(1)] + [] == [Int(1)] && [[Int(1)]] + [] == [[Int(1)]];
    var literal := Literals(WITHOUT_POINT, row);
    assert CommaList(literal) == literal[0] && literal[0] == "1";
  }

  /** INSERT INTO t VALUES (1.0) into a DOUBLE column is logged as `1`: the restart throws on it and has no database. */
  lemma WithoutPointExample()
    ensures ValidDb(DOUBLES_D)
    ensures var next := StepUnlocked(WITHOUT_POINT, JustSaved(DOUBLES_D), Insert("t", [[Dbl(ONE)]])).0;
      next.db.Some? && Recover(WITHOUT_POINT, next.disk, next.wal.file).db == None
  {
    hide ValidDb, Addressable, Consistent, EncodeDb, Recover, InsertSql, RowsReadAs, ValidRows, ShapedRow, DataStep;
    DoublesDatabase();
    OneReadsAsInteger();
    JustSavedConsistent(WITHOUT_POINT, DOUBLES_D);
    InsertRestart(WITHOUT_POINT, JustSaved(DOUBLES_D), [], "t", [[Dbl(ONE)]]);
    DataIsDataStep(WITHOUT_POINT, JustSaved(DOUBLES_D), Insert("t", [[Dbl(ONE)]]));
  }

  /** 1e20, and a printer that prints every double as 1e20 is printed. */
  const LARGE: Word64 := 0x4415_AF1D_78B5_8C40
  const WITH_EXPONENT := FloatText((bits: Word64) => "1e+20", (text: string) => None)

  lemma ExponentText()
    ensures Unreadable(WITH_EXPONENT, Dbl(LARGE)) && ShapedRow(WITH_EXPONENT, [Dbl(LARGE)])
    ensures |InsertSql(WITH_EXPONENT, "t", [Dbl(LARGE)])| < TWO_64
  {
    assert "1e+20"[1..] == "e+20" && Span("e+20", IsNumberPart) == 0;
    assert Mantissa("1e+20") == 1;
    var literal := Literals(WITH_EXPONENT, [Dbl(LARGE)]);
    assert CommaList(literal) == literal[0] && literal[0] == "1e+20";
  }

  /** A double printed as `1e+20` is accepted by its column and ends the tokenizer at the restart. */
  lemma ExponentExample()
    ensures ValidDb(DOUBLES_D)
    ensures var next := StepUnlocked(WITH_EXPONENT, JustSaved(DOUBLES_D), Insert("t", [[Dbl(LARGE)]])).0;
      next.db.Some? && Recover(WITH_EXPONENT, next.disk, next.wal.file).db == None
  {
    hide ValidDb, Addressable, Consistent, EncodeDb, Recover, InsertSql, ValidRows, ShapedRow, DataStep, RowsReadAs,
        Unreadable;
    DoublesDatabase();
    ExponentText();
    JustSavedConsistent(WITH_EXPONENT, DOUBLES_D);
    assert Unreadable(WITH_EXPONENT, [[Dbl(LARGE)]][0][0]);
    UnreadableRowsReadNot(WITH_EXPONENT, [[Dbl(LARGE)]], 0);
    InsertRestart(WITH_EXPONENT, JustSaved(DOUBLES_D), [], "t", [[Dbl(LARGE)]]);
    DataIsDataStep(WITH_EXPONENT, JustSaved(DOUBLES_D), Insert("t", [[Dbl(LARGE)]]));
  }

  /** The doubles nearest to 0.1234567 and to 0.123457, as which it is printed. */
  const EXACT: Word64 := 0x3FBF_9ADB_B8F8_DA72
  const ROUNDED: Word64 := 0x3FBF_9AE0_C176_5775

  const ROUNDING := FloatText((bits: Word64) => "0.123457", (text: string) => Some(ROUNDED))

  const MEASURED_T := TableV("t", [INT_COLUMN, DOUBLE_COLUMN], [[Int(1), Dbl(EXACT)]], map[])
  const MEASURED_D := Db("d", map["t" := MEASURED_T])

  const IS_EXACT := Some(Comparison("x", EqualTo, Dbl(EXACT)))
  const IS_ROUNDED := Some(Comparison("x", EqualTo, Dbl(ROUNDED)))

  lemma MeasuredDatabase()
    ensures ValidDb(MEASURED_D) && Addressable(MEASURED_D)
    ensures ColumnIndex(MEASURED_T.schema, "a") == Some(0) && ColumnIndex(MEASURED_T.schema, "x") == Some(1)
  {
    var schema, row := MEASURED_T.schema, MEASURED_T.rows[0];
    assert schema[0].name == "a" && schema[1].name == "x" && "a"[0] != "x"[0];
    assert ColumnIndexFrom(schema, "x", 1) == Some(1);
    assert FitsColumn(schema[0], row[0]) && FitsColumn(schema[1], row[1]);
    assert ValidRow(schema, row);
  }

  lemma MeasuredPredicates()
    ensures WhereResolves(MEASURED_T.schema, IS_EXACT) && WhereReadAs(ROUNDING, IS_EXACT) == Ok(IS_ROUNDED)
    ensures Selected(MEASURED_T.schema, MEASURED_T.rows[0], IS_EXACT)
    ensures !Selected(MEASURED_T.schema, MEASURED_T.rows[0], IS_ROUNDED)
  {
    hide ColumnIndex, ValidDb, Addressable;
    MeasuredDatabase();
    assert '.' in "0.123457" by { assert "0.123457"[1] == '.'; }
    assert IsNumberText("0.123457");
  }

  const UPDATED_D := Db("d", map["t" := MEASURED_T.(rows := [[Int(2), Dbl(EXACT)]])])
  const DELETED_D := Db("d", map["t" := MEASURED_T.(rows := [])])

  lemma MeasuredUpdate()
    ensures DataEffect(Some(MEASURED_D), Update("t", "a", Int(2), IS_EXACT)) == Effect(Some(UPDATED_D), Done, true)
  {
    hide Selected, MatchesWhere, ColumnIndex, UpdateFrom, Resolves;
    MeasuredDatabase();
    MeasuredPredicates();
    UpdateIsSimultaneous(MEASURED_T.schema, MEASURED_T.rows, 0, Int(2), IS_EXACT);
    var changed := UpdateFrom(MEASURED_T.schema, MEASURED_T.rows, 0, Int(2), IS_EXACT, 0);
    assert MEASURED_T.rows[0][0 := Int(2)] == [Int(2), Dbl(EXACT)];
    assert changed.rows == [[Int(2), Dbl(EXACT)]];
    assert MEASURED_D.tables["t" := MEASURED_T.(rows := changed.rows)] == UPDATED_D.tables;
  }

  lemma MeasuredDelete()
    ensures DataEffect(Some(MEASURED_D), Delete("t", IS_EXACT)) == Effect(Some(DELETED_D), Done, true)
  {
    hide Selected, MatchesWhere, DeleteFrom, Resolves;
    MeasuredDatabase();
    MeasuredPredicates();
    DeleteIsFilter(MEASURED_T.schema, MEASURED_T.rows, IS_EXACT);
    WhereIsLogic(MEASURED_T.schema, MEASURED_T.rows[0], IS_EXACT);
    KeptOne(MEASURED_T.schema, MEASURED_T.rows[0], IS_EXACT);
    assert MEASURED_D.tables["t" := MEASURED_T.(rows := [])] == DELETED_D.tables;
  }

  lemma MeasuredTexts(q: Command)
    requires q == Update("t", "a", Int(2), IS_EXACT) || q == Delete("t", IS_EXACT)
    ensures Logged(q) && NamedCommand(q) && ShapedCommand(ROUNDING, q) && |StatementText(ROUNDING, q)| < TWO_64
  {
    assert IsNumberText("0.123457");
    assert |Digits(2)| == 1;
  }

  /**
   UPDATE t SET a = 2 WHERE x = 0.1234567 and DELETE FROM t WHERE x = 0.1234567 find their row; replayed, they look for
   0.123457 and find none. The restart has the row as it was.
   */
  lemma RoundingExample()
    ensures ValidDb(MEASURED_D)
    ensures var next := StepUnlocked(ROUNDING, JustSaved(MEASURED_D), Update("t", "a", Int(2), IS_EXACT)).0;
      next.db == Some(UPDATED_D) && !Recovers(ROUNDING, next)
    ensures var next := StepUnlocked(ROUNDING, JustSaved(MEASURED_D), Delete("t", IS_EXACT)).0;
      next.db == Some(DELETED_D) && !Recovers(ROUNDING, next)
  {
    hide Consistent, Recovers, ValidDb, Addressable, EncodeDb, DataEffect, StatementText, SameEffect, Selected,
        ColumnIndex, Resolves, WhereReadAs, ShapedCommand, NamedCommand, FitsColumn, DataStep;
    MeasuredDatabase();
    JustSavedConsistent(ROUNDING, MEASURED_D);
    RoundedUpdate();
    RoundedDelete();
  }

  lemma RoundedUpdate()
    requires ValidDb(MEASURED_D) && Consistent(ROUNDING, JustSaved(MEASURED_D), [])
    ensures var next := StepUnlocked(ROUNDING, JustSaved(MEASURED_D), Update("t", "a", Int(2), IS_EXACT)).0;
      next.db == Some(UPDATED_D) && !Recovers(ROUNDING, next)
  {
    hide Consistent, Recovers, ValidDb, Addressable, EncodeDb, DataEffect, StatementText, SameEffect, Selected,
        ColumnIndex, Resolves, WhereReadAs, ShapedCommand, NamedCommand, FitsColumn, DataStep, Recover;
    var q := Update("t", "a", Int(2), IS_EXACT);
    MeasuredDatabase();
    MeasuredPredicates();
    MeasuredUpdate();
    MeasuredTexts(q);
    DataIsDataStep(ROUNDING, JustSaved(MEASURED_D), q);
    LoggedRestart(ROUNDING, JustSaved(MEASURED_D), [], q);
    LoggedRecoversExactly(ROUNDING, JustSaved(MEASURED_D), [], q);
    ResolvedUpdateSurvivesExactly(ROUNDING, MEASURED_D, q);
    assert !SameCell(MEASURED_T, 0, 0, Int(2), IS_ROUNDED, Int(2), IS_EXACT);
  }

  lemma RoundedDelete()
    requires ValidDb(MEASURED_D) && Consistent(ROUNDING, JustSaved(MEASURED_D), [])
    ensures var next := StepUnlocked(ROUNDING, JustSaved(MEASURED_D), Delete("t", IS_EXACT)).0;
      next.db == Some(DELETED_D) && !Recovers(ROUNDING, next)
  {
    hide Consistent, Recovers, ValidDb, Addressable, EncodeDb, DataEffect, StatementText, SameEffect, Selected,
        ColumnIndex, Resolves, WhereReadAs, ShapedCommand, NamedCommand, FitsColumn, DataStep, Recover;
    var q := Delete("t", IS_EXACT);
    MeasuredDatabase();
    MeasuredPredicates();
    MeasuredDelete();
    MeasuredTexts(q);
    DataIsDataStep(ROUNDING, JustSaved(MEASURED_D), q);
    LoggedRestart(ROUNDING, JustSaved(MEASURED_D), [], q);
    LoggedRecoversExactly(ROUNDING, JustSaved(MEASURED_D), [], q);
    ResolvedDeleteSurvivesExactly(ROUNDING, MEASURED_D, q);
  }

  // ----- Prepared statements -----

  lemma NothingToBind(fp: FloatText, sql: string)
    requires Plain(sql)
    ensures Bind(fp, sql, []) == Ok(sql)
  {
    BindPlain(fp, sql, "", []);
    assert sql + "" == sql;
  }

  lemma ExecuteTokens()
    ensures Tokens("EXECUTE p") == Ok([Keyword("EXECUTE"), Keyword("p"), END])
  {
    hide Lex;
    LexWord("EXECUTE");
    LexName("p");
    assert "EXECUTE" + " " == "EXECUTE ";
    Join("EXECUTE ", [Keyword("EXECUTE")], "p", [Keyword("p")]);
    assert "EXECUTE " + "p" == "EXECUTE p";
    assert [Keyword("EXECUTE")] + [Keyword("p")] + [END] == [Keyword("EXECUTE"), Keyword("p"), END];
  }

  lemma CommitTokens()
    ensures Tokens("COMMIT") == Ok([Keyword("COMMIT"), END])
  {
    hide Lex;
    LexName("COMMIT");
    assert [Keyword("COMMIT")] + [END] == [Keyword("COMMIT"), END];
  }

  lemma CommandWord(word: string)
    requires word == "EXECUTE" || word == "COMMIT"
    ensures EqualsIgnoreCase(word, word)
    ensures !EqualsIgnoreCase(word, "CREATE") && !EqualsIgnoreCase(word, "DROP") && !EqualsIgnoreCase(word, "RENAME")
    ensures !EqualsIgnoreCase(word, "LIST") && !EqualsIgnoreCase(word, "INSERT") && !EqualsIgnoreCase(word, "SELECT")
    ensures !EqualsIgnoreCase(word, "UPDATE") && !EqualsIgnoreCase(word, "DELETE") && !EqualsIgnoreCase(word, "SAVE")
    ensures !EqualsIgnoreCase(word, "LOAD") && !EqualsIgnoreCase(word, "BEGIN") && !EqualsIgnoreCase(word, "ROLLBACK")
    ensures !EqualsIgnoreCase(word, "PREPARE")
    ensures word == "EXECUTE" ==> !EqualsIgnoreCase(word, "COMMIT")
  {
    DifferAt(word, "PREPARE", 0);
    DifferAt(word, "CREATE", 1);
    DifferAt(word, "RENAME", 0);
    DifferAt(word, "INSERT", 0);
    DifferAt(word, "SELECT", 0);
    DifferAt(word, "UPDATE", 0);
    DifferAt(word, "DELETE", 0);
  }

  lemma ParseExecuteP(fp: FloatText)
    ensures Parse(fp, "EXECUTE p") == Ok(Execute("p", []))
  {
    hide Lex, EqualsIgnoreCase, Clean, NamedCommand, Tokens;
    ExecuteTokens();
    CommandWord("EXECUTE");
    var ts := [Keyword("EXECUTE"), Keyword("p"), END];
    assert ts[1..] == [Keyword("p"), END] && [Keyword("p"), END][1..] == [END];
    assert ParseExecute(fp, [Keyword("p"), END]) == Ok((Execute("p", []), [END]));
  }

  lemma ParseCommit(fp: FloatText)
    ensures Parse(fp, "COMMIT") == Ok(Commit)
  {
    hide Lex, EqualsIgnoreCase, Clean, NamedCommand, Tokens;
    CommitTokens();
    CommandWord("COMMIT");
    var ts := [Keyword("COMMIT"), END];
    assert ts[1..] == [END];
  }

  lemma PrepareStep(fp: FloatText, st: State, sql: string)
    requires ValidState(st)
    ensures StepUnlocked(fp, st, Prepare("p", sql)) == (st.(prepared := st.prepared["p" := sql]), Done)
  {
    hide ValidDb;
  }

  lemma PreparedAs(fp: FloatText, st: State, sql: string, q: Command)
    requires "p" in st.prepared && st.prepared["p"] == sql && Plain(sql) && Parse(fp, sql) == Ok(q)
    ensures BoundCommand(fp, st, "p", []) == Ok(q)
  {
    hide Parse;
    NothingToBind(fp, sql);
  }

  /** PREPARE p AS "EXECUTE p"; EXECUTE p takes the process down, whatever its state and its stack. */
  lemma PreparedItselfExample(fp: FloatText, depth: nat, st: State)
    requires ValidState(st)
    ensures var next := StepUnlocked(fp, st, Prepare("p", "EXECUTE p")).0;
      ValidState(next) && Runs.After(fp, depth, next, Submit("EXECUTE p")) == Recover(fp, next.disk, next.wal.file)
  {
    hide Parse, Recover, ValidDb, Follow, StepUnlocked, Runs.After, Bind, BoundCommand;
    PrepareStep(fp, st, "EXECUTE p");
    var next := StepUnlocked(fp, st, Prepare("p", "EXECUTE p")).0;
    ParseExecuteP(fp);
    PreparedAs(fp, next, "EXECUTE p", Execute("p", []));
    EndlessChain(fp, depth, next, Execute("p", []));
    AfterSubmit(fp, depth, next, "EXECUTE p");
  }

  lemma PreparedCommitFollows(fp: FloatText, depth: nat, st: State)
    requires depth > 0 && BoundCommand(fp, st, "p", []) == Ok(Commit)
    ensures Follow(fp, depth, st, Execute("p", [])) == Reached(Commit)
  {
    hide BoundCommand;
    assert Follow(fp, depth - 1, st, Commit) == Reached(Commit);
  }

  /**
   CREATE DATABASE d; CREATE TABLE t (a INT); BEGIN; INSERT INTO t VALUES (1); PREPARE p AS "COMMIT"; EXECUTE p;
   ROLLBACK: the ROLLBACK is refused and the row stays.
   */
  lemma PreparedCommitExample(fp: FloatText, depth: nat)
    requires depth > 0
    ensures ValidState(ExampleState(fp))
    ensures var next := StepUnlocked(fp, ExampleState(fp), Prepare("p", "COMMIT")).0;
      ValidState(next) &&
      var done := Step(fp, depth, next, Execute("p", []));
      done.1 == Done && RollbackStep(done.0) == (done.0, Failed) && done.0.db == Some(ONE_ROW_D)
  {
    hide Parse, ValidDb, ExampleRecords, EncodeAll, Bind, BoundCommand, StepUnlocked, Follow, RollbackStep, Step,
        Addressable;
    ExampleDatabases();
    var st := ExampleState(fp);
    PrepareStep(fp, st, "COMMIT");
    var next := st.(prepared := st.prepared["p" := "COMMIT"]);
    ParseCommit(fp);
    PreparedAs(fp, next, "COMMIT", Commit);
    PreparedCommitFollows(fp, depth, next);
    PreparedCommitEnds(fp, depth, next, Execute("p", []));
  }
}
