# A verified model of VertexDB

VertexDB is a small relational engine: SQL text is tokenized, parsed and executed against tables that keep their rows in
pages, hash and ordered indexes and version chains; every change is appended to a write-ahead log as SQL text, SAVE writes a
snapshot file, and a restart loads the snapshot and replays the log through the parser. This project models that engine in
Dafny and proves what holds of it over all inputs, all runs and all reachable states. `dafny verify dfyconfig.toml` checks
everything.

The engine is modelled twice. As **values**: a database is a name and a map of tables, a table is a schema, a row sequence
and index definitions, the executor is a state machine over databases, log bytes and snapshot bytes (`Relations`,
`Snapshot`, `WalFormat`, `WriteAheadLogs`, `Transactions`, `Execution`). As **objects**: classes with the source's fields and
loops (`Parsing.Parser`, `WriteAheadLogs.WriteAheadLog`, `Indexes.HashIndex`, `BTreeIndexes.BTreeIndex`,
`BufferPools.BufferPool`, `RowStores.PageRowStore`, `Mvcc.MVCCRowStore`, `Tables.Table`, `Databases.Database`, `Storage`,
`Executor.QueryExecutor`). Every object method is proved to refine the value model, down to which objects it may touch, so
what is proved about the values holds of the objects: `Executor.QueryExecutor.Execute` takes exactly the step
`Execution.Step`, and its constructor reaches exactly `Execution.Recover`.

The main results:

- **Recovery.** `Recovery.StepKeepsRecovery` says, for every statement in every state whose files rebuild it, exactly when
  the files still rebuild the live database afterwards, doubles of every printed shape included. `Runs.RunRecovers` and
  `PlainRuns.EveryPlainRunRecovers` carry it over whole runs that go on through restarts, crashes inside SAVE and INSERT and
  stack overflows. `CrashWindows` treats the moments inside SAVE and torn logs, `SavedNames` several saved
  databases and what LOAD returns, `Doubles` the one kind of literal whose text may not read back.
- **Text round trip.** `SqlRoundTrip.StatementReadsBack` says what the character-level tokenizer and the parser make of any
  logged statement, and `SqlRoundTrip.StatementRoundTrip` that it is the statement itself when its literals read back, by
  compositionality of the tokenizer over safe boundaries (`Lexer.LexCompose`).
- **Text to statement.** `Reading.TextReadsBack`: every statement of every kind, as `Sentences` lays down that it is written,
  is read as that statement by the tokenizer and the parser; chains of conditions without brackets are the subject of
  `Precedence.ChainPrecedence`.
- **What statements mean.** `Effects` says of each data statement, `Comparisons` of each comparison and `Answers` of SELECT,
  join, select list, ORDER BY and LIMIT what they come to in terms of names, cells and positions, apart from the functions
  that compute them; `Executor.QueryExecutor.Select` and `SelectJoined` return just that, inside a transaction and outside.
- **One row sequence, five representations.** Pages, buffer pool, hash index, ordered index and version chains follow every
  mutation (`Tables.Table`), so the access paths of a SELECT mean the scan (`Statements.CollectRows`) and a delete-free
  history can be read back at any tick (`Mvcc.TimeTravel`). For histories with deletes, `Mvcc` says of every single change
  exactly when the newest reader still sees the row store.
- **Transactions.** A rollback restores the database of BEGIN (`Coherence.RollbackRestoresBegin`), on objects because the
  clone shares nothing with the live database (`Databases.Database.Clone`, `Executor.QueryExecutor.ExecuteUnlocked`).
  From any files and over any run the inconsistent branches of COMMIT and ROLLBACK are unreachable
  (`Coherence.InconsistentIsUnreachable`).
- **Structures.** The B+ tree layout and its leaf walks, LRU over whole histories, the grouped join, the byte codecs.

Where the code does not have a property its design suggests, the model keeps the code's behaviour, a lemma shows a concrete
failure, and another states exactly when the property does hold:

- ROLLBACK and LOAD change the live database without a log record, and an UPDATE or DELETE that throws half-way keeps its
  partial changes unlogged (`Recovery.Drops` is the condition of `StepKeepsRecovery`; `Examples.RollbackLosesExample`,
  `Examples.LoadLosesExample`, `Examples.HalfUpdateExample`, `Examples.HalfDeleteExample`).
- A SAVE record written before a crash hides the changes since an older snapshot (`CrashWindows.CrashBeforePublish`,
  `Examples.SaveCrashLosesExample`), and a SAVE is lost exactly when a smaller name is saved, because a restart loads the
  first file it meets (`Recovery.SaveKeepsExactly`, `SavedNames.NextSaveExactly`, `Examples.HiddenSaveExample`).
- A log torn inside a record is dropped whole (`CrashWindows.TornRecovery`, `Examples.TornLogExample`), and a process that
  starts on one never makes anything durable again (`Runs.TornRun`).
- A double may print without a point, rounded or with an exponent, and then the restart reads another value, selects other
  rows or abandons the database. `Doubles.InsertRecoversExactly`, `Doubles.UpdateSurvivesExactly`,
  `Doubles.DeleteSurvivesExactly` and `Recovery.UnreadableNeverRecovers` say exactly when; the examples are
  `Examples.WithoutPointExample`, `Examples.RoundingExample` and `Examples.ExponentExample`.
- A NaN among the keys of a map leaves it without an order (`Values.NaNBreaksOrder`, `Values.SourceLessExactly`).
- Version chains are keyed by position and not shifted by deletes. Deleting an updated row brings the overwritten version
  back, a second delete restamps the first, and after any delete but one of the last row the next insert may land on the
  chain of a row still stored and hide it (`Mvcc.InsertKeepsScanExactly`, `Mvcc.UpdateKeepsScanExactly`,
  `Mvcc.DropKeepsScanExactly`, `Mvcc.ByIdStepExactly`, `Mvcc.LaterChangeKeepsViewExactly`; the examples are
  `Mvcc.ResurfacesExample`, `Mvcc.RestampsExample` and `Mvcc.InsertHidesExample`).
- EXECUTE of a prepared COMMIT ends the transaction like COMMIT itself (`Coherence.PreparedCommitEnds`,
  `Examples.PreparedCommitExample`), and a statement prepared as its own execution overflows any stack
  (`Execution.EndlessChain`, `Examples.PreparedItselfExample`).
- LIMIT 0 sends one row (`Joins.ProjectRows`).
- LOAD inside a transaction leaves the transaction active for as long as the process lives (`Coherence.LoadOrphansTransaction`,
  `Coherence.LoadOrphansForGood`).

Conventions. A C++ call that throws becomes `Result`, its message dropped; a constructor that throws on a bad argument has
that argument excluded by its precondition, and the method that calls it makes the check and returns the error. A byte is the
low eight bits of a `char`. A double is its 64-bit pattern. Text formatting and reading of doubles are a parameter,
`FloatText`; results about reading text back ask only that each double prints in one of the shapes `operator<<` gives it
(`LiteralText.FloatShape`). Sorting is a parameter, `Joins.Sorter`. The number of nested EXECUTE calls the stack holds is a
parameter `depth`; one call more takes the process down. Clocks, locks and the file system are not modelled: the saved files
are a map from database name to bytes, the log is one byte string.

## Model

| member | source | states |
|---|---|---|
| `Values.ValueOrder` | src/common/value.cpp:51-59 | `operator<` over Null, Int, Double and String, with doubles in the IEEE 754 total order, is a strict total order whose incomparability is `==`, which is what every `std::map` keyed by values needs; which order it is, the rows of `Comparisons` say |
| `Values.SourceLessExactly` | src/common/value.cpp:51-59 | that order and the order with the language's own `<` on doubles disagree exactly where it puts a NaN, or one zero and the other, in order |
| `Values.NaNBreaksOrder` | src/common/value.cpp:51-59 | with the language's own `<`, NaN is level with 1.0 and with 2.0 although 1.0 is below 2.0: no order a `std::map` could rely on |
| `Values.SortedValues` | src/common/value.cpp:51-59 | iterating a map keyed by values visits each key once, in increasing order |
| `Comparisons.IntsCompare` | src/execution/query_executor.cpp:18-28 | integers compare in a WHERE clause as the numbers they are |
| `Comparisons.StringsCompare` | src/execution/query_executor.cpp:18-28 | a string is below another if and only if it is a proper prefix of it or has the smaller character where they first differ; above, with the roles exchanged |
| `Comparisons.NullsCompare` | src/execution/query_executor.cpp:18-28 | NULL is below every other value and equal to NULL only |
| `Comparisons.TypesCompare` | src/common/value.cpp:51-59 | every integer is below every double and every double below every string |
| `Comparisons.DoublesCompare` | src/execution/query_executor.cpp:18-28 | doubles other than NaN compare as the numbers their sign, exponent and fraction stand for, two zeros apart |
| `Comparisons.DoubleLessIsNumberLess` | src/common/value.cpp:51-59 | the language's own `<` on doubles is that of these numbers, and false on NaN |
| `Comparisons.NaNExactly` | src/common/value.cpp:51-59 | the bit patterns kept out of these comparisons are exactly those with all exponent bits set and a fraction left |
| `Comparisons.ConnectivesEvaluate` | src/execution/query_executor.cpp:630-637 | AND evaluates to true if and only if both sides do, OR to false if and only if both sides do |
| `Comparisons.ComparisonEvaluates` | src/execution/query_executor.cpp:638-641 | a comparison is of the cell under the first column of its name with the literal |
| `Lexer.Tokenize` | src/parser/tokenizer.cpp:19-103 | the position loop returns the tokens of the recursive definition followed by one `End`, or throws exactly when that definition fails |
| `Lexer.ScanToken` | src/parser/tokenizer.cpp:23-99 | one turn of the loop yields the next token and the position after it |
| `Lexer.ScanQuoted` | src/parser/tokenizer.cpp:49-68 | the string loop undoes backslash escapes and throws exactly on an unterminated string |
| `Lexer.LexCompose` | src/parser/tokenizer.cpp:19-103 | tokenizer compositionality: texts that meet at a safe boundary tokenize to the concatenation of their tokens |
| `Lexer.LexedNames` | src/parser/tokenizer.cpp:9-17 | every identifier token has the shape of a name |
| `SqlText.EscapeLoop` | src/execution/query_executor.cpp:44-54 | the escaping loop puts a backslash before exactly the quotes and backslashes |
| `SqlText.CommaLoop` | src/execution/query_executor.cpp:90-117 | the printing loops put `, ` between the parts and nowhere else |
| `LiteralText.EscapeRoundTrip` | src/execution/query_executor.cpp:44-54 | scanning an escaped string gives back the string and stops at its closing quote, whatever follows |
| `LiteralText.IntRoundTrip` | src/parser/parser.cpp:20-29 | every 64-bit integer prints as number text that parses back to it, negatives and the minimum included |
| `LiteralText.Decimals` | src/parser/parser.cpp:20-29 | integers are written and read in decimal, with a minus sign in front of negative ones |
| `LiteralText.LiteralRoundTrip` | src/execution/query_executor.cpp:36-57 | a literal that reads back prints as one token and parses back to its value |
| `LiteralText.DoubleRereadsExactly` | src/parser/parser.cpp:437-452 | a double of any printed shape, exponents, infinities and NaN included, parses back to itself if and only if its text has no exponent, has a point and converts back |
| `LiteralText.ScanLiteral` | src/parser/tokenizer.cpp:19-103 | the tokens of every printed literal, or the tokenizer's exception whatever follows: a double with a positive exponent makes none |
| `LiteralText.LiteralReads` | src/parser/parser.cpp:437-452 | the value parser makes of those tokens: the value read back, or an exception, or a stop at tokens no clause goes on from |
| `SqlRoundTrip.ScanPredicate` | src/execution/query_executor.cpp:61-81 | a printed predicate tokenizes to its fully bracketed token form, at any nesting, or kills the tokenizer exactly when one of its literals does |
| `SqlRoundTrip.PrimaryReads` | src/parser/parser.cpp:388-435 | parsing those tokens gives the tree with every literal as it reads back and stops exactly after it, or throws or stops at junk when one does not read |
| `SqlRoundTrip.PrimaryRoundTrip` | src/parser/parser.cpp:388-435 | when every literal reads back, parsing the bracketed tokens of any AND/OR tree gives back the very tree |
| `SqlRoundTrip.PredicateReads` | src/parser/parser.cpp:388-435 | the same as PrimaryReads through the OR level, before anything that is neither AND nor OR |
| `SqlRoundTrip.ColumnListRoundTrip` | src/parser/parser.cpp:160-192 | a printed column list parses back, types and NULL marks included |
| `SqlRoundTrip.ValuesRead` | src/parser/parser.cpp:236-254 | a printed row parses to exactly the values its literals read as, or fails or stops at junk exactly when one does not read |
| `SqlRoundTrip.RowReadsAsItself` | src/parser/parser.cpp:437-452 | a printed row reads back as itself if and only if each of its literals does |
| `SqlRoundTrip.ReadsBackExactly` | src/parser/parser.cpp:437-452 | a logged statement reads back as itself if and only if each of its literals does |
| `SqlRoundTrip.StatementReadsBack` | src/execution/query_executor.cpp:36-142 | tokenizing and parsing the logged text of CREATE TABLE, DROP, RENAME, single-row INSERT, UPDATE, DELETE and CREATE INDEX gives that statement with every literal as it reads back, or an error exactly when one does not read |
| `SqlRoundTrip.PrintStatement` | src/execution/query_executor.cpp:36-142 | the printing loops and the recursive predicate printer produce the text the theorems speak of |
| `SqlRoundTrip.StatementRoundTrip` | src/execution/query_executor.cpp:36-142 | when its literals read back, parsing the logged text of a statement returns exactly that statement |
| `Parsing.Parser.MatchNext` | src/parser/parser.cpp:127-137 | a cursor match consumes one token exactly when kind and text agree, and never moves past the final `End` |
| `Parsing.Parser.AndPredicate` | src/parser/parser.cpp:400-408 | the AND loop builds the tree of the grammar and leaves the cursor where the grammar stops |
| `Parsing.Parser.OrPredicate` | src/parser/parser.cpp:390-398 | the OR loop builds the tree of the grammar and leaves the cursor where the grammar stops |
| `Parsing.Parser.CreateTableBody` | src/parser/parser.cpp:160-192 | the do/while column loop agrees with the grammar |
| `Parsing.Parser.Tuple` | src/parser/parser.cpp:236-254 | the value loop agrees with the grammar |
| `Parsing.Parser.SelectBody` | src/parser/parser.cpp:256-324 | SELECT with join, WHERE, ORDER BY and LIMIT agrees with the grammar |
| `Parsing.Parser.Statement` | src/parser/parser.cpp:36-110 | the dispatch on the leading keyword agrees with the grammar, on success and on error; what the grammar makes of every statement is Reading.TextReadsBack |
| `Parsing.ParseSql` | src/parser/parser.cpp:31-110 | for every text the cursor parser terminates and returns what the grammar over its tokens returns, which for every way of writing a statement is that statement (Reading.TextReadsBack); `read past end` is unreachable on tokenizer output |
| `Parsing.TokensAreClean` | src/parser/tokenizer.cpp:101-102 | tokenizer output has exactly one `End`, at the end, and only well-formed identifiers |
| `Parsing.ParsedIsNamed` | src/parser/parser.cpp:36-110 | whatever text is submitted, a statement that parses has well-formed names and no empty column, row or value list |
| `Reading.TextReadsBack` | src/parser/parser.cpp:31-452 | for every statement of every kind, written with keywords in any case, blanks of any kind between tokens, NOT NULL, ASC and the semicolon said or left out: tokenizing and parsing the text gives that very statement |
| `Reading.SelectRead` | src/parser/parser.cpp:256-324 | select list or `*`, JOIN with its two columns in order, WHERE, ORDER BY with its direction and LIMIT come back as written, any of them absent |
| `Reading.ColumnsRead` | src/parser/parser.cpp:160-192 | column lists of any length with NULL, NOT NULL or neither, NOT NULL being what neither means |
| `Reading.TuplesRead` | src/parser/parser.cpp:214-234 | any number of rows of any widths come back in order |
| `Reading.PrimaryRead` | src/parser/parser.cpp:410-435 | any bracketed condition comes back, whatever follows |
| `Reading.NothingFollows` | src/parser/parser.cpp:31-45 | a token after a statement's semicolon makes the whole text an error, for every statement |
| `Writing.SpacedLexes` | src/parser/tokenizer.cpp:19-103 | any list of tokens written down with blanks between them tokenizes to that list |
| `Precedence.ChainPrecedence` | src/parser/parser.cpp:388-408 | an unbracketed chain of any length parses to a left-nested OR of left-nested ANDs |
| `Precedence.ChainBrackets` | src/execution/query_executor.cpp:61-81 | a chain of n ANDs, which the parser reads in a loop, is logged behind n opening brackets, which it reads by recursion |
| `Prepared.BindPrepared` | src/execution/query_executor.cpp:655-682 | the character loop binds exactly as the recursive definition does, with both count errors |
| `Prepared.BindSubstitutes` | src/execution/query_executor.cpp:666-681 | binding succeeds if and only if the counts agree, and replaces each placeholder once: a `?` inside a bound value is never substituted again |
| `Prepared.PreparedBinding` | src/execution/query_executor.cpp:655-682 | tokenizing the bound text of a well-bounded template gives the pieces' tokens with exactly one literal token per placeholder, in order |
| `WalFormat.ReadAllBack` | src/persistence/write_ahead_log.cpp:52-77 | `readAll` inverts any sequence of encoded records |
| `WalFormat.TornLog` | src/persistence/write_ahead_log.cpp:52-77 | every byte prefix of a log reads if and only if it is cut at a record boundary, and then as exactly the records before it |
| `WriteAheadLogs.WriteAheadLog.NextLsn` | src/persistence/write_ahead_log.cpp:87-98 | the next number is the cached one, or one more than the largest in the file, in 64-bit arithmetic |
| `WriteAheadLogs.WriteAheadLog.Append` | src/persistence/write_ahead_log.cpp:30-50 | one encoded record is added to the file, or nothing when the file cannot be read |
| `WriteAheadLogs.WriteAheadLog.ReadRecords` | src/persistence/write_ahead_log.cpp:52-77 | the reading loop returns all records, or throws exactly when some record is damaged |
| `WriteAheadLogs.WriteAheadLog.Reset` | src/persistence/write_ahead_log.cpp:79-85 | the file is empty and numbering restarts at 1 |
| `WriteAheadLogs.LogHistory` | src/persistence/write_ahead_log.cpp:30-98 | over any history of appends, reopenings and resets, reading yields exactly the appends since the last reset, numbered 1 to n |
| `Relations.MatchesIsLogic` | src/execution/query_executor.cpp:630-642 | with resolvable columns the short-circuiting evaluation never throws and is the predicate read as logic |
| `Relations.UpdateIsSimultaneous` | src/execution/query_executor.cpp:352-373 | with resolvable columns UPDATE throws if and only if the value does not fit and some row is selected, then changes nothing; otherwise it is a simultaneous map over the starting rows |
| `Relations.FailedUpdateHarmlessExactly` | src/execution/query_executor.cpp:361-368 | an UPDATE, thrown or not, leaves the rows as they were if and only if no selected row before the stopping row holds another value |
| `Relations.DeleteIsFilter` | src/execution/query_executor.cpp:375-392 | with resolvable columns the descending positional erases leave exactly the rows not selected, in order, and count the others |
| `Relations.FailedDeleteHarmlessExactly` | src/execution/query_executor.cpp:379-387 | a DELETE, thrown or not, leaves the rows as they were if and only if no row after the stopping row is selected |
| `Effects.CellsFit` | src/storage/table.cpp:211-226 | NULL is accepted if and only if the column is nullable, and a value if and only if it is of the column's type |
| `Effects.InsertExactly` | src/execution/query_executor.cpp:301-311 | INSERT appends its rows in order if and only if every cell is accepted, and else throws and changes nothing |
| `Effects.UnknownTable` | src/execution/query_executor.cpp:644-653 | a statement on an unknown table throws and changes nothing |
| `Effects.UpdateExactly` | src/execution/query_executor.cpp:352-373 | UPDATE over existing columns assigns the value in the first column of the name in exactly the rows its condition holds on; it throws, and then changes nothing, if and only if the column does not accept the value and there is such a row; it is logged if and only if there is such a row |
| `Effects.DeleteExactly` | src/execution/query_executor.cpp:375-392 | DELETE over existing columns leaves exactly the rows its condition does not hold on, in order, and is logged if and only if it took one away |
| `Effects.CreateTableExactly` | src/execution/query_executor.cpp:253-262 | CREATE TABLE files an empty table under a free name; on a taken name it fails and on an empty schema it throws, and the database stays as it is |
| `Effects.DropTableExactly` | src/execution/query_executor.cpp:264-273 | DROP TABLE takes away the named table and no other, or fails |
| `Effects.RenameTableExactly` | src/execution/query_executor.cpp:275-286 | RENAME TABLE moves schema, rows and indexes to a free name, or fails and changes nothing |
| `Effects.CreateIndexExactly` | src/execution/query_executor.cpp:394-402 | CREATE INDEX adds the index on the first column of the name; an unknown column or a taken index name fails |
| `Effects.OperationNamed` | src/execution/query_executor.cpp:253-402 | each kind of statement is logged under its own operation |
| `Effects.CreateDatabaseExactly` | src/execution/query_executor.cpp:247-251 | CREATE DATABASE opens an empty database of the name, whatever was open, and touches no saved file |
| `Snapshot.ReadTableBack` | src/persistence/storage_manager.cpp:176-215 | a table block decodes to the table that wrote it and leaves exactly the bytes that follow it |
| `Snapshot.SnapshotRoundTrip` | src/persistence/storage_manager.cpp:102-218 | decoding the bytes of any database that satisfies the row and index invariants gives back the same name, tables, schemas, nullability, indexes and rows |
| `FileFormats.SnapshotBytes` | src/persistence/storage_manager.cpp:102-125 | a snapshot opens with `TCRDB001`, version 1, the length and characters of the name, and the number of tables |
| `FileFormats.TableBytes` | src/persistence/storage_manager.cpp:102-160 | a table is its name, then its columns, its indexes by name and column name, and its rows, each list with its count in front |
| `FileFormats.ValueBytes` | src/persistence/storage_manager.cpp:50-74 | a value is its type byte, 255 for NULL, and eight bytes lowest first, or a length and characters |
| `FileFormats.ColumnBytes` | src/persistence/storage_manager.cpp:122-126 | a column is its name, its type byte and a byte for whether it may be NULL |
| `FileFormats.RecordBytes` | src/persistence/write_ahead_log.cpp:30-50 | a log record is `AWCT`, version 1, its number, its operation and its payload with its length in front, lowest byte first |
| `FileFormats.OperationCodes` | src/persistence/write_ahead_log.cpp:30-50 | operations are numbered in the order they are declared |
| `Storage.SaveDatabase` | src/persistence/storage_manager.cpp:102-143 | the writing loops over a database object produce the bytes of its value |
| `Storage.LoadDatabase` | src/persistence/storage_manager.cpp:158-218 | the reading loops succeed exactly when the bytes decode, column type bytes beyond the three named ones included, and build a new database object with the decoded content and agreeing indexes |
| `Storage.LoadTable` | src/persistence/storage_manager.cpp:176-215 | one turn: a table object with the block's schema, rows and indexes, sharing nothing with older objects |
| `Transactions.TransactionManager.Begin` | src/transaction/transaction_manager.cpp:7-11 | a new transaction gets an identifier never used before and is active; the others keep their states |
| `Transactions.TransactionManager.Finish` | src/transaction/transaction_manager.cpp:13-27 | commit and rollback succeed exactly on an active transaction |
| `Execution.StepKeepsValid` | src/execution/query_executor.cpp:200-243 | every statement, failing ones included, keeps all stored rows valid and all indexes on resolvable columns |
| `Effects.BeginRemembers` | src/execution/query_executor.cpp:426-436 | BEGIN keeps the database, remembers it and hands out an identifier that was in no use |
| `Effects.EndingIsRecorded` | src/execution/query_executor.cpp:438-463 | COMMIT keeps the database and ROLLBACK brings back the remembered one; the manager records which of the two it was |
| `Effects.PrepareKeepsText` | src/execution/query_executor.cpp:465-468 | PREPARE keeps the text under its name, and no other text or state changes |
| `Execution.FollowDeeper` | src/execution/query_executor.cpp:470-473 | a chain of prepared statements that ends within the stack ends at the same statement on any deeper stack |
| `Execution.EndlessChain` | src/execution/query_executor.cpp:470-473 | a statement prepared as its own execution exhausts every stack |
| `Recovery.StepKeepsRecovery` | src/execution/query_executor.cpp:200-243 | from any state whose files rebuild it, logs with save records included, a statement leaves files that rebuild the live database if and only if it is not a ROLLBACK or LOAD that brings back something else, an UPDATE or DELETE that throws after changing a row, or a SAVE behind another file, and what it logs reads back with its effect; and then the invariant holds again |
| `Recovery.SaveKeeps` | src/execution/query_executor.cpp:404-412 | SAVE leaves a recoverable database if and only if the file with the smallest saved name, where that name is smaller than its own, holds this very database |
| `Recovery.HiddenExactly` | src/persistence/storage_manager.cpp:220-230 | among files that each hold a database of their own name, a saved database is hidden from the restart if and only if a smaller name is saved |
| `Recovery.SaveKeepsExactly` | src/execution/query_executor.cpp:404-412 | so SAVE leaves a recoverable database if and only if no saved name is smaller than its own |
| `Recovery.UnreadableNeverRecovers` | src/parser/parser.cpp:437-452 | in every state with the invariant, an INSERT, UPDATE or DELETE that changed anything and has one literal printed with an exponent, or as infinity or NaN, anywhere in its rows, value or predicate leaves files from which a restart has no database at all |
| `Replays.ConsistentRecovers` | src/execution/query_executor.cpp:706-756 | recovery rebuilds the live database, writes neither file and so can be repeated; save records may stand anywhere in the log |
| `Replays.RecoverIsReplay` | src/execution/query_executor.cpp:728-755 | with a snapshot, recovery replays exactly the records after the last save record; without one, all of them |
| `Replays.ReplaySplit` | src/execution/query_executor.cpp:737-755 | replaying a log is replaying its tail on the result of its head, as long as the head replays |
| `Recovery.InvalidWriteChangesNothing` | src/execution/query_executor.cpp:301-373 | a multi-row INSERT with one bad row, and an UPDATE of a wrong type or NULL, throw with database, log and files unchanged |
| `Runs.RunRecovers` | src/execution/query_executor.cpp:706-763 | over every run of texts, restarts, crashes inside SAVE or between the records of an INSERT and stack overflows whose events meet the condition in the state they find, the files rebuild the live database and the invariant holds for what the log has come to hold, so the run may go on |
| `Runs.EventKeepsConsistent` | src/execution/query_executor.cpp:404-412 | each such event keeps the invariant; a restart and a crash inside SAVE keep the database |
| `Runs.InsertCrashKeepsRows` | src/execution/query_executor.cpp:301-311 | a crash once k of the n records of an INSERT are written: the restart holds exactly the first k rows more, and the invariant |
| `Runs.TornRun` | src/persistence/write_ahead_log.cpp:52-77 | once a process starts on a log torn inside a record, no statement ever becomes durable again: over any run the files stay, and every restart falls back to the last snapshot |
| `PlainRuns.PlainIsAllowed` | src/execution/query_executor.cpp:247-412 | a statement under one database name, without doubles, ROLLBACK or LOAD and with predicates over existing columns meets the condition of StepKeepsRecovery; prepared statements count as what they come down to |
| `PlainRuns.ResolvedNeverHalfWay` | src/execution/query_executor.cpp:352-392 | with resolvable columns no UPDATE or DELETE stops half-way |
| `PlainRuns.EveryPlainRunRecovers` | src/execution/query_executor.cpp:706-763 | from an empty directory, every run of such statements, rejected texts, restarts, crashes between the records of an INSERT, inside SAVE after its publish, or before it while there is no older snapshot, and stack overflows leaves files that rebuild the live database and keep the invariant |
| `SavedNames.NextSaveExactly` | src/execution/query_executor.cpp:404-412 | over every allowed run on any number of databases each saved file keeps holding a database of its own name, and the next SAVE leaves a recoverable database if and only if no saved name is smaller than its own |
| `SavedNames.LoadReturnsLastSaved` | src/execution/query_executor.cpp:414-424 | over every allowed run on any number of databases, through restarts and crashes inside SAVE and INSERT, LOAD DATABASE of a name opens the database last saved under it, or what its file held before the run |
| `SavedNames.LoadOpens` | src/execution/query_executor.cpp:414-424 | LOAD DATABASE without a name opens the file of the open database, with a name the file of that name, and drops the transaction's snapshot |
| `CrashWindows.CrashAfterPublish` | src/execution/query_executor.cpp:404-412 | a crash between SAVE's publish and its log reset loses nothing, from any state with the invariant, and the files keep it, if and only if no smaller name is saved whose file decodes to another database; a file that is looked at first and does not decode is harmless |
| `CrashWindows.CrashBeforePublish` | src/execution/query_executor.cpp:404-412 | a crash between SAVE's log record and its publish loses nothing if and only if there is no older snapshot, or it equals the live database; and then the files keep the invariant |
| `CrashWindows.TornRecovery` | src/execution/query_executor.cpp:717-726 | a log torn inside a record is dropped whole: the restart is the snapshot alone |
| `Doubles.InsertRecoversExactly` | src/execution/query_executor.cpp:301-311 | an INSERT of any number of rows, doubles of every printed shape included, leaves a recoverable database if and only if every literal of every row reads back as itself |
| `Doubles.LoggedRecoversExactly` | src/execution/query_executor.cpp:253-402 | any other logged statement leaves a recoverable database if and only if it reads back as a statement with the same effect |
| `Doubles.UpdateSurvivesExactly` | src/execution/query_executor.cpp:352-373 | every logged UPDATE, whatever its value and predicate, has the same effect when read back if and only if both read, the statement read back throws at no row, and every row comes out of it the same |
| `Doubles.ResolvedUpdateSurvivesExactly` | src/execution/query_executor.cpp:352-373 | over existing columns: if and only if value and predicate read, the value read back fits the column or no row is selected any more, and every row ends with the same cell |
| `Doubles.UpdateValueSurvivesExactly` | src/execution/query_executor.cpp:352-373 | when the predicate reads back as itself: if and only if the value does |
| `Doubles.DeleteSurvivesExactly` | src/execution/query_executor.cpp:375-392 | every DELETE that meets no exception has the same effect when read back if and only if its predicate reads and evaluates to the same on every row |
| `Doubles.ResolvedDeleteSurvivesExactly` | src/execution/query_executor.cpp:375-392 | over existing columns: if and only if its predicate reads back as one that selects the same rows |
| `Coherence.StepKeepsCoherent` | src/execution/query_executor.cpp:184-198 | every call of `execute`, LOAD and chains of prepared statements included, keeps: a held snapshot implies an active transaction that the manager knows as active |
| `Coherence.OpenedIsCoherent` | src/execution/query_executor.cpp:706-756 | an executor opened on any saved files and any log bytes, damaged ones included, has it: the statements replayed keep it too |
| `Coherence.EventKeepsCoherent` | src/execution/query_executor.cpp:184-198 | every text, restart and crash keeps it |
| `Coherence.InconsistentIsUnreachable` | src/execution/query_executor.cpp:438-463 | from any files, over any run of texts, restarts and crashes, COMMIT and ROLLBACK succeed if and only if a snapshot is held; both `inconsistent` branches and the manager's exceptions are never reached, and the next identifier is unused |
| `Coherence.RollbackRestoresBegin` | src/execution/query_executor.cpp:426-463 | whatever is called between BEGIN and ROLLBACK, prepared statements and statements failing half-way included, the database is the one at BEGIN, as long as no call comes down to COMMIT, ROLLBACK or LOAD or overflows the stack |
| `Coherence.PreparedCommitEnds` | src/execution/query_executor.cpp:470-473 | EXECUTE of a chain that comes down to COMMIT commits: ROLLBACK then refuses and what was done stays |
| `Coherence.LoadOrphansTransaction` | src/execution/query_executor.cpp:414-424 | LOAD inside a transaction drops the snapshot and leaves the transaction active, so COMMIT and ROLLBACK then do nothing |
| `Coherence.LoadOrphansForGood` | src/transaction/transaction_manager.cpp:7-35 | whatever is called after it as long as the process lives, later transactions included, that transaction stays active in the manager |
| `Examples.RollbackLosesExample` | src/execution/query_executor.cpp:451-463 | BEGIN; INSERT; ROLLBACK is undone in memory only: a restart brings the row back |
| `Examples.LoadLosesExample` | src/execution/query_executor.cpp:414-424 | CREATE TABLE; SAVE; INSERT; LOAD goes back to the snapshot in memory only: a restart has the row again |
| `Examples.HalfUpdateExample` | src/execution/query_executor.cpp:352-373 | an UPDATE that meets an unknown column at its second row has changed the first and logged nothing |
| `Examples.HalfDeleteExample` | src/execution/query_executor.cpp:375-392 | a DELETE that meets an unknown column at its first row has erased the last and logged nothing |
| `Examples.SaveCrashLosesExample` | src/execution/query_executor.cpp:404-412 | SAVE; INSERT; SAVE with a crash before its publish: the restart is the first snapshot, without the row |
| `Examples.HiddenSaveExample` | src/execution/query_executor.cpp:404-412 | databases a and b: SAVE of b succeeds and empties the log, and the restart opens a |
| `Examples.TornLogExample` | src/persistence/write_ahead_log.cpp:52-77 | one byte missing from the third record: the restart has no database, while the two whole records before it would give the table |
| `Examples.WithoutPointExample` | src/execution/query_executor.cpp:36-57 | 1.0 is logged as `1`: the DOUBLE column refuses it at the restart, which then has no database |
| `Examples.ExponentExample` | src/execution/query_executor.cpp:36-57 | 1e20 is logged as `1e+20`: the restart throws on it and has no database |
| `Examples.RoundingExample` | src/execution/query_executor.cpp:61-81 | 0.1234567 is logged as 0.123457: the UPDATE and the DELETE that found their row by it find none at the restart, which has the row as it was |
| `Examples.PreparedItselfExample` | src/execution/query_executor.cpp:465-473 | PREPARE p AS an EXECUTE of p: executing p takes the process down, in every state and for every stack |
| `Examples.PreparedCommitExample` | src/execution/query_executor.cpp:465-473 | BEGIN; INSERT; PREPARE p AS a COMMIT; EXECUTE p; ROLLBACK: the ROLLBACK is refused and the row stays |
| `Executor.QueryExecutor.ExecuteUnlocked` | src/execution/query_executor.cpp:200-243 | the object takes exactly the state machine's step, with the same outcome, and changes no object of the transaction snapshot |
| `Executor.QueryExecutor.Execute` | src/execution/query_executor.cpp:184-198 | the same with chains of prepared statements bound, parsed and followed to the statement they come down to, as deep as the stack allows |
| `Executor.QueryExecutor.ApplyData` | src/execution/query_executor.cpp:253-402 | a data statement changes the live database object as the value model says and leaves the snapshot object's content untouched |
| `Executor.QueryExecutor.InsertEach` | src/execution/query_executor.cpp:306-309 | rows are logged and inserted one by one; a failing log stops the loop after the rows already done |
| `Executor.QueryExecutor.RunSave` | src/execution/query_executor.cpp:404-412 | record, file and reset in that order, or an exception with nothing changed when the record cannot be appended |
| `Executor.QueryExecutor.RunLoad` | src/execution/query_executor.cpp:414-424 | replaces the database object and drops the snapshot, or throws with everything unchanged |
| `Executor.QueryExecutor.RunBegin` | src/execution/query_executor.cpp:426-436 | takes a deep copy that shares no object with the live database |
| `Executor.QueryExecutor.RunCommit` | src/execution/query_executor.cpp:438-449 | drops the snapshot and finishes the transaction, or refuses without change |
| `Executor.QueryExecutor.RunRollback` | src/execution/query_executor.cpp:451-463 | the snapshot object becomes the live database |
| `Executor.QueryExecutor.ReplayRecords` | src/execution/query_executor.cpp:737-755 | the replay loop reaches the state of the recursive definition, the database abandoned on the first exception |
| `Executor.FindStart` | src/execution/query_executor.cpp:728-735 | the forward scan finds the position after the last save record |
| `Executor.QueryExecutor.constructor` | src/execution/query_executor.cpp:179-182 | opening an executor on any files yields exactly the recovered state |
| `Executor.QueryExecutor.Select` | src/execution/query_executor.cpp:313-350 | outside a transaction, and inside one on a table without deletes (or any table whose chains show its current rows), SELECT answers with the collected rows of the table as it is now, ordered, projected and cut, under the headings of the select list, or throws; in every other state, with those of the planner's path as the reader sees them |
| `Executor.QueryExecutor.SelectJoined` | src/execution/query_executor.cpp:522-628 | likewise for a join: the answer is that of the two tables' current rows outside a transaction, and inside one on tables without deletes; in every other state, of the rows the reader sees |
| `Databases.Database.RunOn` | src/execution/query_executor.cpp:301-402 | a statement on one table changes that table and leaves every other table as it was, because tables share no object |
| `Databases.Database.CreateTable` | src/storage/database.cpp:17-22 | a new empty table under a free name; a taken name is refused and an empty name or schema throws even then, and the database stays as it is |
| `Databases.Database.DropTable` | src/storage/database.cpp:24-32 | exactly the named table goes |
| `Databases.Database.RenameTable` | src/storage/database.cpp:34-52 | the same rows and indexes under the new name; an empty new name throws after the old table is gone |
| `Databases.CopyTable` | src/storage/database.cpp:83-98 | a new table object with the rows and indexes of another, its history reading as one insert per row |
| `Databases.Database.Clone` | src/storage/database.cpp:83-98 | a deep copy: equal content, no object shared |
| `Tables.Table.Insert` | src/storage/table.cpp:130-137 | throws exactly when the row does not fit; otherwise row store, every index, version chains and history all grow by the row |
| `Tables.Table.Erase` | src/storage/table.cpp:139-151 | removes the row at a position and brings indexes and chains along, or returns false with nothing changed |
| `Tables.Table.Update` | src/storage/table.cpp:153-174 | assigns one column, throws exactly when the value does not fit, and brings indexes and chains along |
| `Tables.Table.CreateIndex` | src/storage/table.cpp:176-195 | both indexes of the new name group exactly the stored rows; refused without change when the column is unknown or the name taken |
| `Tables.Table.ReplaceRows` | src/storage/table.cpp:197-209 | all rows are checked first; afterwards the history reads as loading the rows one by one |
| `Tables.Table.ValidateRow` | src/storage/table.cpp:211-226 | accepts exactly rows of the schema's width whose values have the column's type, or are NULL where allowed |
| `Tables.Table.AddRowToIndexes` | src/storage/table.cpp:228-239 | indexes that group the rows before `id` come to group the rows up to `id` |
| `Tables.Table.RebuildIndexes` | src/storage/table.cpp:241-251 | every index groups exactly the stored rows, whatever it held before |
| `Tables.Table.IndexedLookup` | src/storage/table.cpp:66-75 | finds an index exactly when one covers the column, and returns the ascending ids of the rows with that key |
| `Tables.Table.OrderedLookup` | src/storage/table.cpp:77-95 | the same through the ordered index for all three operators, key by key in key order |
| `Tables.Table.RowsSnapshotAt` | src/storage/table.cpp:38-41 | without deletes, reading at tick t returns the rows held right after change t |
| `Tables.Table.RowsByIdAt` | src/storage/table.cpp:48-51 | without deletes, reading ids at tick t returns what the row store would have returned right after change t |
| `Mvcc.MVCCRowStore.Read` | src/transaction/mvcc_row_store.cpp:23-35 | the backward scan returns the newest version visible to the reader |
| `Mvcc.MVCCRowStore.ReadVisibleRows` | src/transaction/mvcc_row_store.cpp:37-46 | the visible row of every chain, in id order |
| `Mvcc.ReadIsNewest` | src/transaction/mvcc_row_store.cpp:28-33 | a visible version after which none is visible is what is read |
| `Mvcc.TimeTravelById` | src/transaction/mvcc_row_store.cpp:7-35 | after every delete-free history, chain `id` read at tick t is row `id` right after change t, and there is a chain for each row and no other |
| `Mvcc.TimeTravel` | src/storage/table.cpp:38-41 | after every delete-free history, a scan at tick t returns exactly the rows held right after change t; a reader past the last tick sees the row store |
| `Mvcc.TimeTravelPicked` | src/storage/table.cpp:48-51 | the same for lookups by row id |
| `Mvcc.LaterChangeKeepsViewExactly` | src/transaction/mvcc_row_store.cpp:7-35 | a later change leaves what an earlier reader sees as it was if and only if it is not a delete of a chain whose newest version that reader already sees as deleted, with something else showing |
| `Mvcc.DeleteKeepsScanExactly` | src/transaction/mvcc_row_store.cpp:11-46 | after a delete-free history, erasing any positions from last to first leaves the newest reader's scan equal to the row store right afterwards if and only if none of the erased rows had ever been updated |
| `Mvcc.FirstDeleteByIdExactly` | src/storage/table.cpp:139-151 | lookups by id survive the first delete if and only if it takes the last row and that row was never updated |
| `Mvcc.InsertKeepsScanExactly` | src/storage/table.cpp:130-137 | after any history, deletes included, whose newest scan is the row store, an INSERT keeps that so if and only if the chain it lands on shows nothing and every chain beyond that shows anything shows the inserted row |
| `Mvcc.UpdateKeepsScanExactly` | src/storage/table.cpp:153-174 | after any such history, an UPDATE keeps it if and only if its chain shows a row and every chain below does, or the new row is what chain and row hold already |
| `Mvcc.DropKeepsScanExactly` | src/storage/table.cpp:139-151 | after any such history, a delete keeps it if and only if its chain shows a row, shows nothing without its newest version, and the rows from the one it shows down to the erased one are equal |
| `Mvcc.ByIdStepExactly` | src/storage/table.cpp:130-174 | after any history whose chains read by id are the rows, inserts and updates keep that so, and a delete does if and only if it takes the last row and its chain shows nothing without its newest version |
| `Mvcc.InsertHidesExample` | src/storage/table.cpp:130-151 | insert, insert, delete the first, insert: no row was updated, and the scan misses a stored row |
| `Mvcc.ResurfacesExample` | src/transaction/mvcc_row_store.cpp:28-33 | update then delete: the row store is empty and every later reader sees the overwritten row |
| `Mvcc.RestampsExample` | src/transaction/mvcc_row_store.cpp:11-19 | two deletes of row 0: the second changes what a reader between them sees |
| `Statements.UpdateRows` | src/execution/query_executor.cpp:359-372 | the UPDATE loop on a table object leaves the rows, count and exception of the value-level loop, with indexes and versions in step |
| `Statements.DeleteRows` | src/execution/query_executor.cpp:375-391 | the DELETE loop on a table object likewise, and its history grows by exactly the erased positions, last first |
| `Statements.InsertRows` | src/execution/query_executor.cpp:301-311 | all rows or none; in order |
| `Statements.DeleteViewExactly` | src/execution/query_executor.cpp:691-696 | readers inside a transaction see exactly the remaining rows after a DELETE on a table without earlier deletes if and only if no selected row had been updated |
| `Statements.CollectRows` | src/execution/query_executor.cpp:497-520 | in every state and for every reader, the rows or the exception of the planner's path as that reader sees them; to a reader that sees the current rows, those of the full scan, through the ordered index exactly their stable sort by the compared column |
| `Statements.PlanExactly` | src/planner/query_planner.cpp:18-49 | an index serves exactly the WHERE clauses that are one comparison on a column it covers: equality through the hash index, the others through the ordered one |
| `Statements.DeleteFreeSees` | src/execution/query_executor.cpp:684-704 | a table without deletes shows its current rows to every reader outside or inside a transaction, by scan and by id |
| `Statements.SelectFrom` | src/execution/query_executor.cpp:313-350 | projection errors come before any row is read and an unknown ORDER BY column after; then the collected rows, ordered, projected and cut, and their headings |
| `Statements.ScanRows` | src/execution/query_executor.cpp:511-519 | the scanning loop returns the selected rows in order, or throws at the first row whose predicate throws |
| `Statements.JoinTables` | src/execution/query_executor.cpp:522-628 | the join of two table objects is that of the rows the reader sees, ordered, projected and cut, in every state |
| `AccessPaths.GroupHolds` | src/storage/table.cpp:228-251 | an index groups exactly the positions of the rows with each key |
| `AccessPaths.HashPathIsScan` | src/execution/query_executor.cpp:500-504 | the rows found through the hash index are the rows a scan with equality returns, in the same order |
| `AccessPaths.OrderedPathIsStableSort` | src/execution/query_executor.cpp:505-509 | the rows found through the ordered index are the stable sort by key of the scan's rows, NULL keys first |
| `AccessPaths.StableSortUnique` | src/execution/query_executor.cpp:505-509 | there is only one stable sort |
| `AccessPaths.StableSortPermutes` | src/execution/query_executor.cpp:505-509 | a stable sort loses and invents no row |
| `AccessPaths.ChosenIsHaving` | src/execution/query_executor.cpp:511-519 | for one comparison on a known column the full scan is the filter by that comparison |
| `Joins.HashJoin` | src/execution/query_executor.cpp:561-600 | the grouped join returns what scanning left rows in order and, for each, right rows in order returns, WHERE filter and exceptions included |
| `Joins.GroupRows` | src/execution/query_executor.cpp:563-566 | each group is the right rows with its key, in order |
| `Joins.FindResultColumn` | src/execution/query_executor.cpp:144-166 | the two loops resolve a name as the definition does |
| `Joins.ResolveJoinedProjection` | src/execution/query_executor.cpp:541-559 | the select list resolves to its positions, or throws at the first unknown or ambiguous name |
| `Joins.ProjectRows` | src/execution/query_executor.cpp:337-348 | as many rows as the limit, projected in order; the limit is looked at after a row was added, so LIMIT 0 sends one |
| `Joins.AmbiguousExactly` | src/execution/query_executor.cpp:152-165 | a name throws if and only if no column carries it in full and two columns end in it |
| `Answers.ChosenMeans` | src/execution/query_executor.cpp:511-519 | a scan returns exactly the rows the predicate evaluates to true on, in order |
| `Answers.ChosenFailsExactly` | src/execution/query_executor.cpp:511-519 | a scan throws if and only if the predicate throws on some row |
| `Answers.ResolvesExactly` | src/execution/query_executor.cpp:144-166 | a name resolves in full to its first column, else for short to the only column that has it; it is unknown or ambiguous in exactly the other cases |
| `Answers.JoinedColumnNames` | src/execution/query_executor.cpp:533-539 | the columns of a joined row are named table, point, column, the left table's before the right one's |
| `Answers.JoinColumnExactly` | src/execution/query_executor.cpp:168-175 | a join column is found with and without its table's name in front |
| `Answers.JoinedIsLogic` | src/execution/query_executor.cpp:580-593 | with names that resolve the predicate never throws on a joined row and is the predicate read as logic |
| `Answers.JoinedConditionsEvaluate` | src/execution/query_executor.cpp:580-593 | on a joined row AND evaluates to true if and only if both sides do, OR to false if and only if both sides do |
| `Answers.JoinMeans` | src/execution/query_executor.cpp:561-600 | a join returns exactly the left rows joined to the right rows with an equal key on which the predicate holds, by left position and then by right |
| `Answers.JoinFailsExactly` | src/execution/query_executor.cpp:561-600 | a join throws if and only if the predicate throws on some pair of rows with equal keys |
| `Answers.JoinOfMeans` | src/execution/query_executor.cpp:522-600 | of two tables with existing join columns and a condition that resolves: the same in terms of the tables' columns |
| `Answers.TableProjectionMeans` | src/execution/query_executor.cpp:476-495 | `*` is every column in order; otherwise the answer shows the first column of each name in the order of the list, and throws if and only if some name is no column |
| `Answers.JoinedProjectionMeans` | src/execution/query_executor.cpp:541-559 | the same on a join, with names resolved in full or for short |
| `Answers.ArrangedExactly` | src/execution/query_executor.cpp:323-334 | ORDER BY ascending: keys never go down; descending: never up |
| `Answers.OrderedKeepsRows` | src/execution/query_executor.cpp:323-334 | ORDER BY loses and invents no row, and throws if and only if its column is unknown |
| `Answers.OutputMeans` | src/execution/query_executor.cpp:337-348 | of each row the selected cells in the order of the list; all rows, or as many as the limit, or one when it is 0 |
| `Indexes.HashIndex.Insert` | src/indexing/hash_index.cpp:24-27 | the id joins the end of its key's list; other keys are untouched |
| `Indexes.HashIndex.Remove` | src/indexing/hash_index.cpp:29-40 | the id leaves its key's list, and a key without ids leaves the index |
| `Indexes.HashIndex.Find` | src/indexing/hash_index.cpp:47-54 | the ids of the key, or none |
| `BTreeIndexes.Layout` | src/indexing/btree_index.cpp:115-154 | the layout: leaves hold the sorted distinct keys, all but the last full, linked in order, under a root separated by first keys when there are several |
| `BTreeIndexes.ChunksProperties` | src/indexing/btree_index.cpp:122-136 | leaves joined are the keys, every leaf but the last is full, none is empty, and their number is the least possible |
| `BTreeIndexes.LayoutPairs` | src/indexing/btree_index.cpp:115-154 | walking the leaves of a layout visits exactly the entries, in key order |
| `BTreeIndexes.FindMeaning` | src/indexing/btree_index.cpp:42-55 | the leaf walk finds exactly the ids filed under the key |
| `BTreeIndexes.LessMeaning` | src/indexing/btree_index.cpp:57-72 | the early exit loses nothing: the walk collects exactly the keys below |
| `BTreeIndexes.GreaterMeaning` | src/indexing/btree_index.cpp:74-92 | the latched flag admits nothing else: the walk collects exactly the keys above |
| `BTreeIndexes.BTreeIndex.Insert` | src/indexing/btree_index.cpp:17-21 | the entry is added and the layout is again that of the entries |
| `BTreeIndexes.BTreeIndex.Remove` | src/indexing/btree_index.cpp:23-34 | the entry is removed and the layout is again that of the entries |
| `BTreeIndexes.BTreeIndex.Find` | src/indexing/btree_index.cpp:42-55 | the loops return the ids of the key |
| `BTreeIndexes.BTreeIndex.LessThan` | src/indexing/btree_index.cpp:57-72 | the loops return the ids of exactly the smaller keys, in key order |
| `BTreeIndexes.BTreeIndex.GreaterThan` | src/indexing/btree_index.cpp:74-92 | the loops return the ids of exactly the greater keys, in key order |
| `BufferPools.BufferPool.Put` | src/storage/buffer_pool.cpp:13-23 | the pool holds the most recently used ids after the use, the new page among them |
| `BufferPools.BufferPool.Get` | src/storage/buffer_pool.cpp:25-32 | a hit returns the page last put under the id and counts as a use; a miss changes nothing |
| `BufferPools.RecencyOrder` | src/storage/buffer_pool.cpp:13-40 | the recency list orders ids by their last use |
| `BufferPools.PoolHoldsMostRecent` | src/storage/buffer_pool.cpp:42-48 | after any history the pool is full before anything is dropped, and every id held was used more recently than every id dropped |
| `RowStores.VectorRowStore.Erase` | src/storage/row_store.cpp:46-52 | the row at the position goes, the rows after it move down |
| `RowStores.PageRowStore.Append` | src/storage/row_store.cpp:95-103 | the paged store grows by the row as the plain one does, slots and pages still hold the rows at their computed places |
| `RowStores.PageRowStore.Erase` | src/storage/row_store.cpp:105-113 | as the plain store: one row goes and all pages are rebuilt full |
| `RowStores.PageRowStore.Update` | src/storage/row_store.cpp:115-123 | as the plain store, in one page |
| `RowStores.PageRowStore.RowsById` | src/storage/row_store.cpp:149-158 | as the plain store: ids out of range are skipped |
| `RowStores.PageRowStore.ReplaceRows` | src/storage/row_store.cpp:162-168 | as the plain store |
| `RowStores.AppendPlaced` | src/storage/row_store.cpp:95-103 | slot i is page i / rowsPerPage + 1 at offset i % rowsPerPage, and every page but the last is full |
| `RowStores.SerializeInjective` | src/storage/row_store.cpp:170-180 | two row lists with the same page image are equal |
| `RowStores.CacheAgrees` | src/storage/row_store.cpp:95-180 | a cached page that is in use holds exactly the image of its current rows, through rebuilds and evictions |

## Left out

- Directory handling, the temporary file and the rename fallback of `saveDatabase`: publishing a snapshot is one atomic step.
- The order of `directory_iterator` in `loadFirstDatabase` is unspecified; the model takes the first file by name.
- The evaluation order of the two `readString` calls for an index definition is unspecified in C++; the model reads the name first, as the writer wrote it.
- `operator<<` and `std::stod` on doubles: the parameter `FloatText`.
- Values.ValueOrder: doubles are ordered by the IEEE 754 total order and equal when their bits are, where the code compares with `<` and `==`; what the two orders disagree on is stated by Values.SourceLessExactly, but the tables and indexes are modelled with the first.
- Stack depth of the parser and of the predicate printer: only a chain of EXECUTEs longer than the stack takes the process down here. How deep a predicate is logged is stated by Precedence.ChainBrackets.
- Reading.TextReadsBack: tokens are set apart by blanks and conditions are bracketed; texts without blanks are the subject of Lexer.LexCompose, chains without brackets of Precedence.ChainPrecedence.
- Mutexes and `LockManager`: statements run one at a time.
- `ValueHash` and bucket behaviour: a hash index is a map under value equality.
- Planner cost and row estimates, result messages, plan explanations, the CLI, benchmarks and scripts.
- `std::ranges::sort`: the parameter `Joins.Sorter`, any function that sorts by a column in a direction; it leaves the order of equal keys open.
- Version ticks are unbounded here and 64-bit in the code; the in-transaction reader is the largest 64-bit number, and the results about it ask for no more ticks than that.
- `HashIndex::size`, `BTreeIndex::height` and similar counters, `listIndexes`, `versionCount`, `metadataExists`: read-only counters and listings, not modelled.
- Execution.Step: the outcome of SELECT is not part of the step, which leaves the state alone either way.
- Recovery.StepKeepsRecovery: asks that the texts and counts a statement adds fit the 64-bit fields of the log, and those of the snapshot for a SAVE.
- Mvcc.DeleteKeepsScanExactly: is about the moment after one descending run of deletes on a delete-free history; what any later change does is the subject of Mvcc.InsertKeepsScanExactly, Mvcc.UpdateKeepsScanExactly and Mvcc.DropKeepsScanExactly, one change at a time from an agreeing state.
- Statements.DeleteViewExactly: is about scans, for the first DELETE of a table's life.
- Databases.CopyTable: `renameTable` reinserts row by row and `clone` refills; the model checks all rows before the first insert in both, which valid rows cannot tell apart.
- Snapshot.SnapshotRoundTrip: asks that every length fits 64 bits, as every object in memory does.
