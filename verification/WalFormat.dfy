/** The record format of src/persistence/write_ahead_log.cpp. */
module WalFormat {
  import opened Results
  import opened Values
  import opened Bytes

  datatype WalOperation =
    | CreateDatabaseOp | CreateTableOp | DropTableOp | RenameTableOp
    | InsertOp | UpdateOp | DeleteOp | CreateIndexOp | SaveDatabaseOp
    | UnknownOp(code: nat)

  datatype WalRecord = WalRecord(lsn: nat, operation: WalOperation, payload: string)

  const WAL_MAGIC: nat := 0x54435741
  const WAL_VERSION: nat := 1
  /** Magic, version, LSN, operation and payload size. */
  const HEADER: nat := 25

  function OperationCode(op: WalOperation): nat {
    match op
    case CreateDatabaseOp => 0
    case CreateTableOp => 1
    case DropTableOp => 2
    case RenameTableOp => 3
    case InsertOp => 4
    case UpdateOp => 5
    case DeleteOp => 6
    case CreateIndexOp => 7
    case SaveDatabaseOp => 8
    case UnknownOp(code) => code
  }

  /** The unchecked cast of a byte to the operation enumeration. */
  function OperationOf(code: nat): WalOperation {
    match code
    case 0 => CreateDatabaseOp
    case 1 => CreateTableOp
    case 2 => DropTableOp
    case 3 => RenameTableOp
    case 4 => InsertOp
    case 5 => UpdateOp
    case 6 => DeleteOp
    case 7 => CreateIndexOp
    case 8 => SaveDatabaseOp
    case _ => UnknownOp(code)
  }

  function EncodeHeader(r: WalRecord): (s: string)
    ensures |s| == HEADER
  {
    LittleEndian(WAL_MAGIC, 4) + LittleEndian(WAL_VERSION, 4) + LittleEndian(r.lsn, 8)
    + LittleEndian(OperationCode(r.operation), 1) + LittleEndian(|r.payload|, 8)
  }

  function EncodeRecord(r: WalRecord): (s: string)
    ensures |s| == HEADER + |r.payload|
  {
    EncodeHeader(r) + r.payload
  }

  function EncodeAll(records: seq<WalRecord>): string {
    if records == [] then "" else EncodeRecord(records[0]) + EncodeAll(records[1..])
  }

  function ReadRecord(input: string): (r: Read<WalRecord>)
    ensures r.Ok? ==> |r.value.1| + HEADER <= |input|
  {
    var magic :- ReadUnsigned(input, 4);
    var version :- ReadUnsigned(magic.1, 4);
    if magic.0 != WAL_MAGIC || version.0 != WAL_VERSION then Err
    else
      var lsn :- ReadUnsigned(version.1, 8);
      var operation :- ReadUnsigned(lsn.1, 1);
      var size :- ReadUnsigned(operation.1, 8);
      var payload :- ReadBytes(size.1, size.0);
      Ok((WalRecord(lsn.0, OperationOf(operation.0), payload.0), payload.1))
  }

  function ReadAll(file: string): Result<seq<WalRecord>>
    decreases |file|
  {
    if file == "" then Ok([])
    else
      var first :- ReadRecord(file);
      var others :- ReadAll(first.1);
      Ok([first.0] + others)
  }

  /** The record's fields fit their fixed-width slots. */
  predicate Fits(r: WalRecord) {
    r.lsn < TWO_64 && !r.operation.UnknownOp? && |r.payload| < TWO_64
  }

  predicate AllFit(records: seq<WalRecord>) {
    forall i :: 0 <= i < |records| ==> Fits(records[i])
  }

  lemma ReadRecordBack(r: WalRecord, rest: string)
    requires Fits(r)
    ensures ReadRecord(EncodeRecord(r) + rest) == Ok((r, rest))
  {
    Power256Values();
    var afterSize := r.payload + rest;
    var afterOp := LittleEndian(|r.payload|, 8) + afterSize;
    var afterLsn := LittleEndian(OperationCode(r.operation), 1) + afterOp;
    var afterVersion := LittleEndian(r.lsn, 8) + afterLsn;
    var afterMagic := LittleEndian(WAL_VERSION, 4) + afterVersion;
    assert EncodeRecord(r) + rest == LittleEndian(WAL_MAGIC, 4) + afterMagic;
    hide LittleEndian, FromLittleEndian;
    ReadUnsignedBack(WAL_MAGIC, 4, afterMagic);
    ReadUnsignedBack(WAL_VERSION, 4, afterVersion);
    ReadUnsignedBack(r.lsn, 8, afterLsn);
    ReadUnsignedBack(OperationCode(r.operation), 1, afterOp);
    ReadUnsignedBack(|r.payload|, 8, afterSize);
    ReadBytesBack(r.payload, rest);
  }

  lemma {:induction false} ReadAllAppend(records: seq<WalRecord>, rest: string)
    requires AllFit(records)
    ensures ReadAll(EncodeAll(records) + rest)
         == if ReadAll(rest).Ok? then Ok(records + ReadAll(rest).value) else Err
    decreases |records|
  {
    hide ReadRecord, EncodeRecord;
    if records == [] {
      assert EncodeAll(records) + rest == rest;
      if ReadAll(rest).Ok? { assert records + ReadAll(rest).value == ReadAll(rest).value; }
    } else {
      var tail := EncodeAll(records[1..]) + rest;
      assert EncodeAll(records) + rest == EncodeRecord(records[0]) + tail;
      ReadRecordBack(records[0], tail);
      ReadAllAppend(records[1..], rest);
      if ReadAll(rest).Ok? {
        assert [records[0]] + (records[1..] + ReadAll(rest).value) == records + ReadAll(rest).value;
      }
    }
  }

  /** Reading undoes any sequence of appends. */
  lemma ReadAllBack(records: seq<WalRecord>)
    requires AllFit(records)
    ensures ReadAll(EncodeAll(records)) == Ok(records)
  {
    ReadAllAppend(records, "");
    assert EncodeAll(records) + "" == EncodeAll(records) && records + [] == records;
  }

  lemma {:induction false} EncodeAllAppend(a: seq<WalRecord>, b: seq<WalRecord>)
    ensures EncodeAll(a + b) == EncodeAll(a) + EncodeAll(b)
  {
    hide EncodeRecord;
    if a == [] {
      assert a + b == b;
    } else {
      EncodeAllAppend(a[1..], b);
      assert (a + b)[1..] == a[1..] + b && (a + b)[0] == a[0];
    }
  }

  lemma ReadTorn(r: WalRecord, n: nat)
    requires Fits(r) && 0 < n < |EncodeRecord(r)|
    ensures ReadRecord(EncodeRecord(r)[..n]).Err?
  {
    var torn := EncodeRecord(r)[..n];
    if n >= HEADER {
      ReadHeader(r, r.payload[..n - HEADER]);
      assert torn == EncodeHeader(r) + r.payload[..n - HEADER];
    }
  }

  /** After an intact header the payload is read with the recorded size. */
  lemma ReadHeader(r: WalRecord, rest: string)
    requires Fits(r)
    ensures ReadRecord(EncodeHeader(r) + rest).Ok? <==> |r.payload| <= |rest|
  {
    Power256Values();
    var afterOp := LittleEndian(|r.payload|, 8) + rest;
    var afterLsn := LittleEndian(OperationCode(r.operation), 1) + afterOp;
    var afterVersion := LittleEndian(r.lsn, 8) + afterLsn;
    var afterMagic := LittleEndian(WAL_VERSION, 4) + afterVersion;
    assert EncodeHeader(r) + rest == LittleEndian(WAL_MAGIC, 4) + afterMagic;
    hide LittleEndian, FromLittleEndian;
    ReadUnsignedBack(WAL_MAGIC, 4, afterMagic);
    ReadUnsignedBack(WAL_VERSION, 4, afterVersion);
    ReadUnsignedBack(r.lsn, 8, afterLsn);
    ReadUnsignedBack(OperationCode(r.operation), 1, afterOp);
    ReadUnsignedBack(|r.payload|, 8, rest);
  }

  /**
   Whatever byte a write was torn at, the log is either cut at a record boundary and reads as exactly the
   records before it, or it is rejected; it is never misread.
   */
  lemma {:induction false} TornLog(records: seq<WalRecord>, n: nat)
    requires AllFit(records) && n <= |EncodeAll(records)|
    ensures var read := ReadAll(EncodeAll(records)[..n]);
      read.Ok? <==> exists k :: 0 <= k <= |records| && EncodeAll(records[..k]) == EncodeAll(records)[..n]
    ensures var read := ReadAll(EncodeAll(records)[..n]);
      read.Ok? ==>
        && |read.value| <= |records| && read.value == records[..|read.value|]
        && EncodeAll(read.value) == EncodeAll(records)[..n]
    decreases |records|
  {
    hide ReadRecord, EncodeRecord;
    var file := EncodeAll(records)[..n];
    if n == 0 {
      assert records[..0] == [] && EncodeAll(records[..0]) == file;
    } else {
      var first := EncodeRecord(records[0]);
      if n < |first| {
        assert file == first[..n];
        ReadTorn(records[0], n);
        forall k | 0 <= k <= |records| ensures EncodeAll(records[..k]) != file {
          if k > 0 { assert |EncodeAll(records[..k])| >= |first|; }
        }
      } else {
        var tail := EncodeAll(records[1..])[..n - |first|];
        assert file == first + tail;
        ReadRecordBack(records[0], tail);
        TornLog(records[1..], n - |first|);
        var read := ReadAll(tail);
        forall k | 0 < k <= |records| ensures EncodeAll(records[..k]) == first + EncodeAll(records[1..][..k - 1]) {
          assert records[..k][1..] == records[1..][..k - 1];
        }
        if read.Ok? {
          var j := |read.value|;
          assert ReadAll(file) == Ok([records[0]] + read.value);
          assert [records[0]] + read.value == records[..j + 1];
          assert EncodeAll(records[..j + 1]) == file;
        } else {
          forall k | 0 <= k <= |records| ensures EncodeAll(records[..k]) != file {
            if k > 0 {
              assert EncodeAll(records[1..][..k - 1]) != tail;
              assert EncodeAll(records[..k])[|first|..] == EncodeAll(records[1..][..k - 1]);
              assert file[|first|..] == tail;
            }
          }
        }
      }
    }
  }
}
