/** src/persistence/write_ahead_log.cpp: the append-only log and its sequence numbers. */
module WriteAheadLogs {
  import opened Results
  import opened Values
  import opened WalFormat

  /** The log file and the cached next number; a freshly opened log has none cached. */
  datatype Wal = Wal(file: string, nextLsn: Option<nat>)

  /** `record.lsn + 1` maximised over the records, in 64-bit arithmetic. */
  function NextAfter(next: nat, records: seq<WalRecord>): nat
    decreases |records|
  {
    if records == [] then next
    else
      var candidate := (records[0].lsn + 1) % TWO_64;
      NextAfter(if candidate > next then candidate else next, records[1..])
  }

  function FreshLsn(w: Wal): Result<nat> {
    if w.nextLsn.Some? then Ok(w.nextLsn.value)
    else
      var records :- ReadAll(w.file);
      Ok(NextAfter(1, records))
  }

  function AppendTo(w: Wal, op: WalOperation, payload: string): Result<Wal> {
    var lsn :- FreshLsn(w);
    Ok(Wal(w.file + EncodeRecord(WalRecord(lsn, op, payload)), Some((lsn + 1) % TWO_64)))
  }

  const EMPTY_WAL := Wal("", Some(1))

  class WriteAheadLog {
    var file: string
    var nextLsn: Option<nat>

    function View(): Wal
      reads this
    {
      Wal(file, nextLsn)
    }

    /** Opens the log left in a file by an earlier process. */
    constructor (file: string)
      ensures View() == Wal(file, None)
    {
      this.file := file;
      this.nextLsn := None;
    }

    method NextLsn() returns (r: Result<nat>)
      modifies this
      ensures r == FreshLsn(old(View()))
      ensures View() == if r.Ok? then Wal(old(file), Some((r.value + 1) % TWO_64)) else old(View())
    {
      if nextLsn.Some? {
        var lsn := nextLsn.value;
        nextLsn := Some((lsn + 1) % TWO_64);
        return Ok(lsn);
      }
      var records :- ReadRecords();
      var next: nat := 1;
      assert records[0..] == records;
      for i := 0 to |records|
        invariant NextAfter(1, records) == NextAfter(next, records[i..])
        invariant View() == old(View())
      {
        assert records[i..][1..] == records[i + 1..];
        var candidate := (records[i].lsn + 1) % TWO_64;
        next := if candidate > next then candidate else next;
      }
      nextLsn := Some((next + 1) % TWO_64);
      return Ok(next);
    }

    method Append(op: WalOperation, payload: string) returns (r: Result<nat>)
      modifies this
      ensures r == FreshLsn(old(View()))
      ensures View() == if r.Ok? then AppendTo(old(View()), op, payload).value else old(View())
    {
      var lsn :- NextLsn();
      file := file + EncodeRecord(WalRecord(lsn, op, payload));
      return Ok(lsn);
    }

    method ReadRecords() returns (r: Result<seq<WalRecord>>)
      ensures r == ReadAll(file)
    {
      var records: seq<WalRecord> := [];
      var input := file;
      RecordsThenNone(ReadAll(file));
      while input != ""
        invariant ReadAll(file) == RecordsThen(records, ReadAll(input))
        decreases |input|
      {
        var next := ReadRecord(input);
        if next.Err? {
          return Err;
        }
        RecordsThenStep(records, next.value.0, ReadAll(next.value.1));
        records := records + [next.value.0];
        input := next.value.1;
      }
      assert records + [] == records;
      return Ok(records);
    }

    method Reset()
      modifies this
      ensures View() == EMPTY_WAL
    {
      file := "";
      nextLsn := Some(1);
    }
  }

  ghost function RecordsThen(done: seq<WalRecord>, rest: Result<seq<WalRecord>>): Result<seq<WalRecord>> {
    if rest.Ok? then Ok(done + rest.value) else Err
  }

  lemma RecordsThenNone(rest: Result<seq<WalRecord>>)
    ensures RecordsThen([], rest) == rest
  {
    if rest.Ok? {
      assert [] + rest.value == rest.value;
    }
  }

  lemma RecordsThenStep(done: seq<WalRecord>, r: WalRecord, rest: Result<seq<WalRecord>>)
    ensures RecordsThen(done, RecordsThen([r], rest)) == RecordsThen(done + [r], rest)
  {
    if rest.Ok? {
      assert done + ([r] + rest.value) == (done + [r]) + rest.value;
    }
  }

  // ----- Whole histories of a log -----

  /** The records of the log are numbered 1, 2, ... since the last reset. */
  predicate Numbered(records: seq<WalRecord>) {
    forall i :: 0 <= i < |records| ==> records[i].lsn == i + 1
  }

  /** A log file holding exactly `records`, with the next number cached or to be recomputed. */
  predicate Holds(w: Wal, records: seq<WalRecord>) {
    && w.file == EncodeAll(records)
    && AllFit(records) && Numbered(records)
    && (w.nextLsn.Some? ==> w.nextLsn.value == |records| + 1)
  }

  lemma {:induction false} NextAfterNumbered(records: seq<WalRecord>, from: nat)
    requires forall i :: 0 <= i < |records| ==> records[i].lsn == from + i
    requires 0 < from && from + |records| < TWO_64
    ensures NextAfter(from, records) == from + |records|
    decreases |records|
  {
    if records != [] {
      assert records[0].lsn == from;
      assert forall i :: 0 <= i < |records[1..]| ==> records[1..][i] == records[i + 1];
      NextAfterNumbered(records[1..], from + 1);
    }
  }

  /** Appending adds one record with the next number, whether or not the log was reopened since the last append. */
  lemma AppendHolds(w: Wal, records: seq<WalRecord>, op: WalOperation, payload: string)
    requires Holds(w, records)
    requires |records| + 2 < TWO_64 && !op.UnknownOp? && |payload| < TWO_64
    ensures AppendTo(w, op, payload).Ok?
    ensures Holds(AppendTo(w, op, payload).value, records + [WalRecord(|records| + 1, op, payload)])
  {
    hide EncodeRecord, ReadAll;
    ReadAllBack(records);
    NextAfterNumbered(records, 1);
    var r := WalRecord(|records| + 1, op, payload);
    EncodeAllAppend(records, [r]);
    assert EncodeRecord(r) + "" == EncodeRecord(r);
    assert EncodeAll([r]) == EncodeRecord(r);
  }

  lemma ResetHolds()
    ensures Holds(EMPTY_WAL, [])
  {
  }

  datatype Event = Append(op: WalOperation, payload: string) | Reopen | Reset

  function Happen(w: Wal, e: Event): Result<Wal> {
    match e
    case Append(op, payload) => AppendTo(w, op, payload)
    case Reopen => Ok(w.(nextLsn := None))
    case Reset => Ok(EMPTY_WAL)
  }

  function HappenAll(w: Wal, events: seq<Event>): Result<Wal>
    decreases |events|
  {
    if events == [] then Ok(w)
    else
      var next :- Happen(w, events[0]);
      HappenAll(next, events[1..])
  }

  /** What the log must contain: the appends since the last reset, numbered from 1. */
  function Appended(records: seq<WalRecord>, events: seq<Event>): seq<WalRecord>
    decreases |events|
  {
    if events == [] then records
    else match events[0]
      case Append(op, payload) => Appended(records + [WalRecord(|records| + 1, op, payload)], events[1..])
      case Reopen => Appended(records, events[1..])
      case Reset => Appended([], events[1..])
  }

  predicate Writable(e: Event) {
    e.Append? ==> !e.op.UnknownOp? && |e.payload| < TWO_64
  }

  lemma {:induction false} HistoryHolds(w: Wal, records: seq<WalRecord>, events: seq<Event>)
    requires Holds(w, records)
    requires |records| + |events| + 2 < TWO_64
    requires forall i :: 0 <= i < |events| ==> Writable(events[i])
    ensures HappenAll(w, events).Ok? && Holds(HappenAll(w, events).value, Appended(records, events))
    decreases |events|
  {
    if events != [] {
      var e := events[0];
      if e.Append? {
        AppendHolds(w, records, e.op, e.payload);
      }
      var now := match e
        case Append(op, payload) => records + [WalRecord(|records| + 1, op, payload)]
        case Reopen => records
        case Reset => [];
      HistoryHolds(Happen(w, e).value, now, events[1..]);
    }
  }

  /**
   Over any history of appends, reopenings and resets, reading yields exactly the appends since the last reset, numbered
   1..n.
   */
  lemma LogHistory(events: seq<Event>)
    requires |events| + 2 < TWO_64 && forall i :: 0 <= i < |events| ==> Writable(events[i])
    ensures HappenAll(Wal("", None), events).Ok?
    ensures ReadAll(HappenAll(Wal("", None), events).value.file) == Ok(Appended([], events))
    ensures Numbered(Appended([], events))
  {
    HistoryHolds(Wal("", None), [], events);
    ReadAllBack(Appended([], events));
  }
}
