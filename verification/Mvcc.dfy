/**
 src/transaction/mvcc_row_store.cpp: version chains keyed by row position, and how far they agree with the history of
 the row sequence they shadow. Every change to a table takes one tick; reading at tick `t` should give the rows held
 after change number `t`.
 */
module Mvcc {
  import opened Results
  import opened Values
  import Ordering
  import opened RowStores

  datatype RowVersion = RowVersion(createdBy: nat, deletedBy: Option<nat>, row: Row)

  type Versions = map<nat, seq<RowVersion>>

  // ----- Chains -----

  predicate VisibleTo(v: RowVersion, reader: nat) {
    v.createdBy <= reader && (v.deletedBy.None? || v.deletedBy.value > reader)
  }

  /** The newest version the reader may see. */
  function ReadChain(chain: seq<RowVersion>, reader: nat): Option<Row> {
    if chain == [] then None
    else if VisibleTo(chain[|chain| - 1], reader) then Some(chain[|chain| - 1].row)
    else ReadChain(chain[..|chain| - 1], reader)
  }

  function Chain(versions: Versions, id: nat): seq<RowVersion> {
    if id in versions then versions[id] else []
  }

  function ReadAt(versions: Versions, id: nat, reader: nat): Option<Row> {
    ReadChain(Chain(versions, id), reader)
  }

  function Written(versions: Versions, id: nat, row: Row, tick: nat): Versions {
    versions[id := Chain(versions, id) + [RowVersion(tick, None, row)]]
  }

  function Stamp(chain: seq<RowVersion>, tick: nat): seq<RowVersion> {
    if chain == [] then [] else chain[|chain| - 1 := chain[|chain| - 1].(deletedBy := Some(tick))]
  }

  /** Only the newest version is marked deleted; the chain stays where it is. */
  function Stamped(versions: Versions, id: nat, tick: nat): Versions {
    if id in versions then versions[id := Stamp(versions[id], tick)] else versions
  }

  function Opt(row: Option<Row>): seq<Row> {
    if row.Some? then [row.value] else []
  }

  /** What the reader sees under the given ids, absent rows left out. */
  function VisibleIn(versions: Versions, ids: seq<nat>, reader: nat): seq<Row> {
    if ids == [] then []
    else VisibleIn(versions, ids[..|ids| - 1], reader) + Opt(ReadAt(versions, ids[|ids| - 1], reader))
  }

  predicate IdLess(a: nat, b: nat) { a < b }

  /** Key order of the map of chains. */
  function SortedIds(ids: set<nat>): (r: seq<nat>)
    ensures Ordering.Increasing(IdLess, r)
    ensures forall x :: x in r <==> x in ids
    ensures |r| == |ids|
  {
    Ordering.Sorted(IdLess, ids)
  }

  function VisibleRows(versions: Versions, reader: nat): seq<Row> {
    VisibleIn(versions, SortedIds(versions.Keys), reader)
  }

  /** Reading finds a visible version after which none is visible. */
  lemma {:induction false} ReadIsNewest(chain: seq<RowVersion>, reader: nat, k: nat)
    requires k < |chain| && VisibleTo(chain[k], reader)
    requires forall j :: k < j < |chain| ==> !VisibleTo(chain[j], reader)
    ensures ReadChain(chain, reader) == Some(chain[k].row)
  {
    if k < |chain| - 1 {
      assert !VisibleTo(chain[|chain| - 1], reader);
      ReadIsNewest(chain[..|chain| - 1], reader, k);
    }
  }

  lemma {:induction false} ReadNothing(chain: seq<RowVersion>, reader: nat)
    ensures ReadChain(chain, reader) == None <==> forall j :: 0 <= j < |chain| ==> !VisibleTo(chain[j], reader)
  {
    if chain != [] {
      ReadNothing(chain[..|chain| - 1], reader);
    }
  }

  class MVCCRowStore {
    var versions: Versions

    constructor ()
      ensures versions == map[]
    {
      versions := map[];
    }

    method Write(id: nat, row: Row, tick: nat)
      modifies this
      ensures versions == Written(old(versions), id, row, tick)
    {
      var chain := if id in versions then versions[id] else [];
      versions := versions[id := chain + [RowVersion(tick, None, row)]];
    }

    method Erase(id: nat, tick: nat)
      modifies this
      ensures versions == Stamped(old(versions), id, tick)
    {
      if id !in versions {
        return;
      }
      var chain := versions[id];
      if chain != [] {
        versions := versions[id := chain[|chain| - 1 := chain[|chain| - 1].(deletedBy := Some(tick))]];
      } else {
        assert versions[id := []] == versions;
      }
    }

    method Clear()
      modifies this
      ensures versions == map[]
    {
      versions := map[];
    }

    method Read(id: nat, reader: nat) returns (row: Option<Row>)
      ensures row == ReadAt(versions, id, reader)
    {
      if id !in versions {
        return None;
      }
      var chain := versions[id];
      var i := |chain|;
      assert chain[..i] == chain;
      while i > 0
        invariant 0 <= i <= |chain|
        invariant ReadChain(chain, reader) == ReadChain(chain[..i], reader)
      {
        i := i - 1;
        assert chain[..i + 1][..i] == chain[..i];
        if VisibleTo(chain[i], reader) {
          return Some(chain[i].row);
        }
      }
      return None;
    }

    method ReadVisibleRows(reader: nat) returns (rows: seq<Row>)
      ensures rows == VisibleRows(versions, reader)
    {
      rows := ReadVisibleRowsById(SortedIds(versions.Keys), reader);
    }

    method ReadVisibleRowsById(ids: seq<nat>, reader: nat) returns (rows: seq<Row>)
      ensures rows == VisibleIn(versions, ids, reader)
    {
      rows := [];
      for i := 0 to |ids|
        invariant rows == VisibleIn(versions, ids[..i], reader)
      {
        assert ids[..i + 1][..i] == ids[..i];
        var row := Read(ids[i], reader);
        if row.Some? {
          rows := rows + [row.value];
        }
      }
      assert ids[..|ids|] == ids;
    }
  }

  // ----- Histories -----

  /** One change to a table's rows. */
  datatype Change = Appended(row: Row) | Rewritten(id: nat, row: Row) | Dropped(id: nat)

  predicate InRange(change: Change, n: nat) {
    change.Appended? || change.id < n
  }

  function ApplyTo(rows: seq<Row>, change: Change): seq<Row>
    requires InRange(change, |rows|)
  {
    match change
    case Appended(row) => rows + [row]
    case Rewritten(id, row) => rows[id := row]
    case Dropped(id) => Erased(rows, id)
  }

  /** Every change names a row that exists when it happens. */
  predicate IsHistory(history: seq<Change>)
    decreases |history|, 0
  {
    if history == [] then true
    else
      var before := history[..|history| - 1];
      IsHistory(before) && InRange(history[|history| - 1], |RowsAfter(before)|)
  }

  /** The row store after the history. */
  function RowsAfter(history: seq<Change>): seq<Row>
    requires IsHistory(history)
    decreases |history|, 1
  {
    if history == [] then []
    else ApplyTo(RowsAfter(history[..|history| - 1]), history[|history| - 1])
  }

  function Recorded(versions: Versions, n: nat, change: Change, tick: nat): Versions {
    match change
    case Appended(row) => Written(versions, n, row, tick)
    case Rewritten(id, row) => Written(versions, id, row, tick)
    case Dropped(id) => Stamped(versions, id, tick)
  }

  /** The version chains after the history; change number `k` carries tick `k`. */
  function VersionsAfter(history: seq<Change>): Versions
    requires IsHistory(history)
  {
    if history == [] then map[]
    else
      var before := history[..|history| - 1];
      Recorded(VersionsAfter(before), |RowsAfter(before)|, history[|history| - 1], |history|)
  }

  predicate DeleteFree(history: seq<Change>) {
    forall i :: 0 <= i < |history| ==> !history[i].Dropped?
  }

  lemma Extend(history: seq<Change>, change: Change)
    requires IsHistory(history) && InRange(change, |RowsAfter(history)|)
    ensures IsHistory(history + [change])
    ensures RowsAfter(history + [change]) == ApplyTo(RowsAfter(history), change)
    ensures VersionsAfter(history + [change]) ==
        Recorded(VersionsAfter(history), |RowsAfter(history)|, change, |history| + 1)
  {
    assert (history + [change])[..|history|] == history;
  }

  lemma {:induction false} PrefixIsHistory(history: seq<Change>, t: nat)
    requires IsHistory(history) && t <= |history|
    ensures IsHistory(history[..t])
    decreases |history|
  {
    if t == |history| {
      assert history[..t] == history;
    } else {
      PrefixIsHistory(history[..|history| - 1], t);
      assert history[..|history| - 1][..t] == history[..t];
    }
  }

  /** The rows held right after change number `t`; a later reader sees the last. */
  function RowsAt(history: seq<Change>, t: nat): seq<Row>
    requires IsHistory(history)
  {
    if t >= |history| then RowsAfter(history)
    else
      PrefixIsHistory(history, t);
      RowsAfter(history[..t])
  }

  function RowOf(rows: seq<Row>, id: nat): Option<Row> {
    if id < |rows| then Some(rows[id]) else None
  }

  // ----- Time travel without deletes -----

  lemma ReadExtended(chain: seq<RowVersion>, v: RowVersion, reader: nat)
    ensures ReadChain(chain + [v], reader) == if VisibleTo(v, reader) then Some(v.row) else ReadChain(chain, reader)
  {
    assert (chain + [v])[..|chain|] == chain;
  }

  /** A write at `tick` changes one row, for readers from `tick` on. */
  lemma ReadWritten(versions: Versions, id: nat, row: Row, tick: nat, k: nat, reader: nat)
    ensures ReadAt(Written(versions, id, row, tick), k, reader) ==
      if k == id && tick <= reader then Some(row) else ReadAt(versions, k, reader)
  {
    ReadExtended(Chain(versions, id), RowVersion(tick, None, row), reader);
  }

  lemma RowsAtExtend(history: seq<Change>, t: nat)
    requires IsHistory(history) && history != []
    ensures IsHistory(history[..|history| - 1])
    ensures RowsAt(history, t) == if t >= |history| then RowsAfter(history) else RowsAt(history[..|history| - 1], t)
  {
    var before := history[..|history| - 1];
    if t < |history| {
      PrefixIsHistory(history, t);
      assert before[..|before|] == before;
      assert history[..t] == before[..t];
    }
  }

  /**
   Without deletes, chain `id` read at tick `t` is row `id` right after change `t`, and there is a chain for each row
   and no other.
   */
  lemma {:induction false} TimeTravelById(history: seq<Change>, t: nat, id: nat)
    requires IsHistory(history) && DeleteFree(history)
    ensures ReadAt(VersionsAfter(history), id, t) == RowOf(RowsAt(history, t), id)
    ensures id in VersionsAfter(history) <==> id < |RowsAfter(history)|
    decreases |history|
  {
    hide ReadAt, RowsAt;
    if history == [] {
      NothingYet(t, id);
    } else {
      var n := |history| - 1;
      var before, change := history[..n], history[n];
      assert !change.Dropped?;
      assert history == before + [change];
      hide VersionsAfter, RowsAfter;
      RowsAtExtend(history, t);
      TimeTravelById(before, t, id);
      Extend(before, change);
      hide IsHistory;
      if t >= |before| { RowsAtEnd(before, t); }
      var rows := RowsAfter(before);
      var at := if change.Appended? then |rows| else change.id;
      RecordedWrite(VersionsAfter(before), |rows|, change, |history|);
      ReadWritten(VersionsAfter(before), at, change.row, |history|, id, t);
    }
  }

  lemma NothingYet(t: nat, id: nat)
    ensures ReadAt(VersionsAfter([]), id, t) == RowOf(RowsAt([], t), id)
  {
  }

  lemma RowsAtEnd(history: seq<Change>, t: nat)
    requires IsHistory(history) && t >= |history|
    ensures RowsAt(history, t) == RowsAfter(history)
  {
  }

  lemma RecordedWrite(versions: Versions, n: nat, change: Change, tick: nat)
    requires !change.Dropped?
    ensures Recorded(versions, n, change, tick) ==
        Written(versions, if change.Appended? then n else change.id, change.row, tick)
  {
  }

  // ----- Scans -----

  /** What the reader sees under ids `lo` to `hi`, in order. */
  function VisibleRange(versions: Versions, lo: nat, hi: nat, reader: nat): seq<Row>
    requires lo <= hi
  {
    if lo == hi then [] else VisibleRange(versions, lo, hi - 1, reader) + Opt(ReadAt(versions, hi - 1, reader))
  }

  function UpTo(n: nat): (r: seq<nat>)
    ensures |r| == n && forall i :: 0 <= i < n ==> r[i] == i
  {
    seq(n, i => i)
  }

  lemma {:induction false} VisibleUpTo(versions: Versions, n: nat, reader: nat)
    ensures VisibleIn(versions, UpTo(n), reader) == VisibleRange(versions, 0, n, reader)
  {
    if n > 0 {
      assert UpTo(n)[..n - 1] == UpTo(n - 1);
      VisibleUpTo(versions, n - 1, reader);
    }
  }

  /** Chains keyed 0 to n - 1 are scanned in that order. */
  lemma ScanIsRange(versions: Versions, n: nat, reader: nat)
    requires forall id: nat :: id in versions <==> id < n
    ensures VisibleRows(versions, reader) == VisibleRange(versions, 0, n, reader)
  {
    hide SortedIds;
    forall x: nat ensures x in UpTo(n) <==> x < n {
      if x < n { assert UpTo(n)[x] == x; }
    }
    Ordering.IncreasingUnique(IdLess, SortedIds(versions.Keys), UpTo(n));
    VisibleUpTo(versions, n, reader);
  }

  lemma {:induction false} RangeOf(versions: Versions, rows: seq<Row>, n: nat, reader: nat)
    requires forall id :: 0 <= id < n ==> ReadAt(versions, id, reader) == RowOf(rows, id)
    ensures VisibleRange(versions, 0, n, reader) == if n <= |rows| then rows[..n] else rows
  {
    if n > 0 {
      RangeOf(versions, rows, n - 1, reader);
    }
  }

  lemma {:induction false} NeverFewer(history: seq<Change>, t: nat)
    requires IsHistory(history) && DeleteFree(history)
    ensures |RowsAt(history, t)| <= |RowsAfter(history)|
    decreases |history|
  {
    if history != [] && t < |history| {
      RowsAtExtend(history, t);
      NeverFewer(history[..|history| - 1], t);
      assert !history[|history| - 1].Dropped?;
    }
  }

  /**
   Time travel: after every delete-free history, a scan as of tick `t` returns exactly the rows held right after change
   `t`. In particular a reader past the last tick sees exactly the row store.
   */
  lemma TimeTravel(history: seq<Change>, t: nat)
    requires IsHistory(history) && DeleteFree(history)
    ensures VisibleRows(VersionsAfter(history), t) == RowsAt(history, t)
  {
    hide *;
    var versions := VersionsAfter(history);
    var n := |RowsAfter(history)|;
    forall id: nat ensures id in versions <==> id < n { TimeTravelById(history, t, id); }
    forall id: nat ensures ReadAt(versions, id, t) == RowOf(RowsAt(history, t), id) { TimeTravelById(history, t, id); }
    NeverFewer(history, t);
    ScanIsRange(versions, n, t);
    RangeOf(versions, RowsAt(history, t), n, t);
  }

  /** The same for a lookup by row ids: the reader sees what the row store of that time would have returned. */
  lemma {:induction false} TimeTravelPicked(history: seq<Change>, t: nat, ids: seq<nat>)
    requires IsHistory(history) && DeleteFree(history)
    ensures VisibleIn(VersionsAfter(history), ids, t) == Picked(RowsAt(history, t), ids)
    decreases |ids|
  {
    hide ReadAt, VersionsAfter, RowsAfter, RowsAt, IsHistory;
    if ids != [] {
      var before, id := ids[..|ids| - 1], ids[|ids| - 1];
      assert ids == before + [id];
      TimeTravelPicked(history, t, before);
      TimeTravelById(history, t, id);
      PickedExtend(RowsAt(history, t), before, id);
    }
  }

  // ----- What a delete does -----

  /** What becomes visible when the newest version of a chain is deleted: the one before it, if any. */
  lemma ReadStamped(versions: Versions, id: nat, tick: nat, k: nat, reader: nat)
    ensures ReadAt(Stamped(versions, id, tick), k, reader) ==
      if k != id || Chain(versions, id) == [] then ReadAt(versions, k, reader)
      else
        var chain := Chain(versions, id);
        var last := chain[|chain| - 1];
        if last.createdBy <= reader < tick then Some(last.row) else ReadChain(chain[..|chain| - 1], reader)
  {
    var chain := Chain(versions, id);
    if k == id && chain != [] {
      var stamped := Stamp(chain, tick);
      assert stamped[..|chain| - 1] == chain[..|chain| - 1];
    }
  }

  /** The reader already saw the newest version as deleted, and sees something else than that version's row. */
  predicate Exposed(versions: Versions, id: nat, reader: nat) {
    var chain := Chain(versions, id);
    && chain != []
    && var last := chain[|chain| - 1];
    && last.createdBy <= reader && last.deletedBy.Some? && last.deletedBy.value <= reader
    && ReadChain(chain[..|chain| - 1], reader) != Some(last.row)
  }

  /**
   A change at `tick` leaves what every earlier reader sees as it was, unless it deletes a chain whose newest version
   the reader already sees as deleted: restamping moves that deletion into the reader's future.
   */
  lemma LaterChangeKeepsViewExactly(versions: Versions, n: nat, change: Change, tick: nat, reader: nat)
    requires reader < tick
    ensures (forall id :: ReadAt(Recorded(versions, n, change, tick), id, reader) == ReadAt(versions, id, reader)) <==>
      !(change.Dropped? && Exposed(versions, change.id, reader))
  {
    var recorded := Recorded(versions, n, change, tick);
    if !change.Dropped? {
      var at := if change.Appended? then n else change.id;
      forall id: nat ensures ReadAt(recorded, id, reader) == ReadAt(versions, id, reader) {
        ReadWritten(versions, at, change.row, tick, id, reader);
      }
    } else {
      forall id: nat
        ensures ReadAt(recorded, id, reader) == ReadAt(versions, id, reader) <==>
            !(id == change.id && Exposed(versions, id, reader))
      {
        ReadStamped(versions, change.id, tick, id, reader);
      }
      if Exposed(versions, change.id, reader) {
        assert ReadAt(recorded, change.id, reader) != ReadAt(versions, change.id, reader);
      }
    }
  }

  /** Without deletes every chain is a non-empty run of open versions no newer than the history. */
  predicate Open(chain: seq<RowVersion>, tick: nat) {
    forall i :: 0 <= i < |chain| ==> chain[i].deletedBy.None? && chain[i].createdBy <= tick
  }

  lemma {:induction false} ChainsOpen(history: seq<Change>, id: nat)
    requires IsHistory(history) && DeleteFree(history)
    ensures Open(Chain(VersionsAfter(history), id), |history|)
    ensures Chain(VersionsAfter(history), id) != [] <==> id < |RowsAfter(history)|
    decreases |history|
  {
    if history != [] {
      var n := |history| - 1;
      var before, change := history[..n], history[n];
      assert !change.Dropped?;
      ChainsOpen(before, id);
    }
  }

  lemma {:induction false} RangeSplit(versions: Versions, lo: nat, mid: nat, hi: nat, reader: nat)
    requires lo <= mid <= hi
    ensures VisibleRange(versions, lo, hi, reader) ==
        VisibleRange(versions, lo, mid, reader) + VisibleRange(versions, mid, hi, reader)
    decreases hi
  {
    if mid < hi {
      RangeSplit(versions, lo, mid, hi - 1, reader);
    } else {
      assert VisibleRange(versions, lo, hi, reader) + [] == VisibleRange(versions, lo, hi, reader);
    }
  }

  lemma {:induction false} RangeFrame(a: Versions, b: Versions, lo: nat, hi: nat, reader: nat)
    requires lo <= hi && forall id :: lo <= id < hi ==> Chain(a, id) == Chain(b, id)
    ensures VisibleRange(a, lo, hi, reader) == VisibleRange(b, lo, hi, reader)
    decreases hi
  {
    if lo < hi { RangeFrame(a, b, lo, hi - 1, reader); }
  }

  predicate Descending(ids: seq<nat>, n: nat) {
    && (forall i :: 0 <= i < |ids| ==> ids[i] < n)
    && (forall i, j :: 0 <= i < j < |ids| ==> ids[j] < ids[i])
  }

  function Drops(ids: seq<nat>): (r: seq<Change>)
    ensures |r| == |ids| && forall i :: 0 <= i < |r| ==> r[i] == Dropped(ids[i])
  {
    seq(|ids|, i requires 0 <= i < |ids| => Dropped(ids[i]))
  }

  /** Lowest position erased so far. */
  function Lowest(ids: seq<nat>, n: nat): nat {
    if ids == [] then n else ids[|ids| - 1]
  }

  predicate NeverUpdated(versions: Versions, ids: seq<nat>) {
    forall i :: 0 <= i < |ids| ==> |Chain(versions, ids[i])| == 1
  }

  /** Rows and chains after a run of deletes from the end towards the front of `rows`. */
  ghost predicate Deleting(history: seq<Change>, ids: seq<nat>, reader: nat)
    requires IsHistory(history)
  {
    var whole := history + Drops(ids);
    var start, n := RowsAfter(history), |RowsAfter(history)|;
    var low := Lowest(ids, n);
    && low <= n && IsHistory(whole)
    && var rows, versions := RowsAfter(whole), VersionsAfter(whole);
    && (forall id: nat :: id < low ==> Chain(versions, id) == Chain(VersionsAfter(history), id))
    && (forall id: nat :: id in versions <==> id < n)
    && low <= |rows| && rows[..low] == start[..low]
    && var seen := VisibleRange(versions, low, n, reader);
    if NeverUpdated(VersionsAfter(history), ids) then seen == rows[low..] else |seen| > |rows[low..]|
  }

  lemma DeletingStart(history: seq<Change>, reader: nat)
    requires IsHistory(history) && DeleteFree(history)
    ensures Deleting(history, [], reader)
  {
    assert history + Drops([]) == history;
    forall id: nat ensures id in VersionsAfter(history) <==>
        id < |RowsAfter(history)| { TimeTravelById(history, reader, id); }
  }

  lemma RowsBelow(history: seq<Change>, versions: Versions, lo: nat, hi: nat, reader: nat)
    requires IsHistory(history) && DeleteFree(history) && reader >= |history| && lo <= hi <= |RowsAfter(history)|
    requires forall id :: lo <= id < hi ==> Chain(versions, id) == Chain(VersionsAfter(history), id)
    ensures VisibleRange(versions, lo, hi, reader) == RowsAfter(history)[lo..hi]
  {
    hide ReadAt, VersionsAfter, RowsAfter, IsHistory;
    var base, rows := VersionsAfter(history), RowsAfter(history);
    RangeFrame(versions, base, lo, hi, reader);
    RowsAtEnd(history, reader);
    forall id: nat ensures ReadAt(base, id, reader) == RowOf(rows, id) { TimeTravelById(history, reader, id); }
    RangeOf(base, rows, lo, reader);
    RangeOf(base, rows, hi, reader);
    RangeSplit(base, 0, lo, hi, reader);
    assert rows[..hi] == rows[..lo] + rows[lo..hi];
  }

  /** Deleting a chain's newest version shows nothing exactly when there is no older one. */
  lemma StampedShows(chain: seq<RowVersion>, tick: nat, reader: nat)
    requires Open(chain, reader) && chain != [] && tick <= reader
    ensures ReadChain(Stamp(chain, tick), reader) == None <==> |chain| == 1
  {
    var stamped := Stamp(chain, tick);
    assert stamped[..|chain| - 1] == chain[..|chain| - 1];
    if |chain| > 1 {
      assert VisibleTo(stamped[|chain| - 2], reader);
      ReadNothing(stamped, reader);
    } else {
      assert chain[..0] == [];
    }
  }

  lemma DropsExtend(history: seq<Change>, ids: seq<nat>, d: nat)
    ensures history + Drops(ids + [d]) == (history + Drops(ids)) + [Dropped(d)]
  {
  }

  lemma EraseBelow(rows: seq<Row>, start: seq<Row>, low: nat, d: nat)
    requires d < low <= |rows| && low <= |start| && rows[..low] == start[..low]
    ensures Erased(rows, d)[..d] == start[..d] && Erased(rows, d)[d..] == start[d + 1..low] + rows[low..]
  {
    assert forall i :: 0 <= i < low ==> rows[i] == rows[..low][i] && start[i] == start[..low][i];
    assert rows == rows[..low] + rows[low..];
  }

  lemma NeverUpdatedExtend(versions: Versions, ids: seq<nat>, d: nat)
    ensures NeverUpdated(versions, ids + [d]) <==> NeverUpdated(versions, ids) && |Chain(versions, d)| == 1
  {
    assert forall i :: 0 <= i < |ids| ==> (ids + [d])[i] == ids[i];
    assert (ids + [d])[|ids|] == d;
  }

  /** What a scan sees from the next deleted position on. */
  lemma StampedReads(history: seq<Change>, base: Versions, d: nat, tick: nat, reader: nat)
    requires IsHistory(history) && DeleteFree(history) && d < |RowsAfter(history)|
    requires tick <= reader && |history| <= reader && Chain(base, d) == Chain(VersionsAfter(history), d)
    ensures ReadAt(Stamped(base, d, tick), d, reader) == None <==> |Chain(VersionsAfter(history), d)| == 1
  {
    hide VersionsAfter, RowsAfter, IsHistory, ReadChain;
    ChainsOpen(history, d);
    StampedShows(Chain(base, d), tick, reader);
  }

  lemma OtherChainsStay(versions: Versions, d: nat, tick: nat)
    ensures forall id: nat :: id != d ==> Chain(Stamped(versions, d, tick), id) == Chain(versions, id)
  {
  }

  lemma OneChain(versions: Versions, d: nat, reader: nat)
    ensures VisibleRange(versions, d, d + 1, reader) == Opt(ReadAt(versions, d, reader))
  {
    hide ReadAt;
  }

  lemma RangeAfterDrop(history: seq<Change>, base: Versions, low: nat, d: nat, tick: nat, reader: nat)
    requires IsHistory(history) && DeleteFree(history)
    requires d < low <= |RowsAfter(history)| && tick <= reader && |history| <= reader
    requires forall id: nat :: id < low ==> Chain(base, id) == Chain(VersionsAfter(history), id)
    ensures var after := Stamped(base, d, tick);
      var n := |RowsAfter(history)|;
      VisibleRange(after, d, n, reader) ==
        Opt(ReadAt(after, d, reader)) + (RowsAfter(history)[d + 1..low] + VisibleRange(base, low, n, reader))
    ensures ReadAt(Stamped(base, d, tick), d, reader) == None <==> |Chain(VersionsAfter(history), d)| == 1
  {
    hide VersionsAfter, RowsAfter, IsHistory, ReadChain, VisibleRange, Stamped;
    var n := |RowsAfter(history)|;
    var after := Stamped(base, d, tick);
    StampedReads(history, base, d, tick, reader);
    OtherChainsStay(base, d, tick);
    OneChain(after, d, reader);
    RangeSplit(after, d, d + 1, n, reader);
    RangeSplit(after, d + 1, low, n, reader);
    RowsBelow(history, after, d + 1, low, reader);
    RangeFrame(after, base, low, n, reader);
  }

  lemma DeletingStep(history: seq<Change>, ids: seq<nat>, d: nat, reader: nat)
    requires IsHistory(history) && DeleteFree(history) && reader >= |history| + |ids| + 1
    requires d < Lowest(ids, |RowsAfter(history)|) && Deleting(history, ids, reader)
    ensures Deleting(history, ids + [d], reader)
  {
    hide VersionsAfter, RowsAfter, IsHistory, ReadAt, VisibleRange, NeverUpdated;
    var whole := history + Drops(ids);
    var start := RowsAfter(history);
    var low := Lowest(ids, |start|);
    var rows, versions := RowsAfter(whole), VersionsAfter(whole);
    DropsExtend(history, ids, d);
    Extend(whole, Dropped(d));
    EraseBelow(rows, start, low, d);
    NeverUpdatedExtend(VersionsAfter(history), ids, d);
    RangeAfterDrop(history, versions, low, d, |whole| + 1, reader);
  }

  /**
   After any delete-free history, a DELETE (which erases from the last selected row to the first) leaves the newest
   reader's scan equal to the row store exactly when none of the deleted rows had ever been updated. Otherwise an
   overwritten row comes back into view.
   */
  lemma {:induction false} DeleteKeepsScanExactly(history: seq<Change>, ids: seq<nat>, reader: nat)
    requires IsHistory(history) && DeleteFree(history) && Descending(ids, |RowsAfter(history)|)
    requires reader >= |history| + |ids|
    ensures IsHistory(history + Drops(ids))
    ensures VisibleRows(VersionsAfter(history + Drops(ids)), reader) == RowsAfter(history + Drops(ids)) <==>
      NeverUpdated(VersionsAfter(history), ids)
  {
    hide VersionsAfter, RowsAfter, IsHistory, VisibleRange, NeverUpdated, ReadAt;
    var n := |RowsAfter(history)|;
    DeletingRun(history, ids, reader);
    var whole := history + Drops(ids);
    var low := Lowest(ids, n);
    var rows, versions := RowsAfter(whole), VersionsAfter(whole);
    ScanIsRange(versions, n, reader);
    RangeSplit(versions, 0, low, n, reader);
    RowsBelow(history, versions, 0, low, reader);
    assert rows == rows[..low] + rows[low..];
  }

  lemma DescendingPrefix(ids: seq<nat>, n: nat)
    requires Descending(ids, n) && ids != []
    ensures var before := ids[..|ids| - 1]; Descending(before, n) && ids[|ids| - 1] < Lowest(before, n)
  {
  }

  lemma {:induction false} DeletingRun(history: seq<Change>, ids: seq<nat>, reader: nat)
    requires IsHistory(history) && DeleteFree(history) && Descending(ids, |RowsAfter(history)|)
    requires reader >= |history| + |ids|
    ensures Deleting(history, ids, reader)
    decreases |ids|
  {
    hide RowsAfter, IsHistory, Deleting;
    if ids == [] {
      DeletingStart(history, reader);
    } else {
      var before, d := ids[..|ids| - 1], ids[|ids| - 1];
      DescendingPrefix(ids, |RowsAfter(history)|);
      DeletingRun(history, before, reader);
      DeletingStep(history, before, d, reader);
      assert before + [d] == ids;
    }
  }

  /** Chains read by id are the rows, and no more. */
  ghost predicate Agrees(versions: Versions, rows: seq<Row>, reader: nat) {
    forall id :: ReadAt(versions, id, reader) == RowOf(rows, id)
  }

  /** Lookups by row id survive the first delete exactly when it takes the last row and that row was never updated. */
  lemma FirstDeleteByIdExactly(history: seq<Change>, d: nat, reader: nat)
    requires IsHistory(history) && DeleteFree(history) && d < |RowsAfter(history)| && reader > |history|
    ensures IsHistory(history + [Dropped(d)])
    ensures Agrees(VersionsAfter(history + [Dropped(d)]), RowsAfter(history + [Dropped(d)]), reader) <==>
      |Chain(VersionsAfter(history), d)| == 1 && d == |RowsAfter(history)| - 1
  {
    hide VersionsAfter, RowsAfter, IsHistory, ReadChain;
    var base, rows := VersionsAfter(history), RowsAfter(history);
    var n := |rows|;
    Extend(history, Dropped(d));
    ChainsOpen(history, d);
    StampedShows(Chain(base, d), |history| + 1, reader);
    RowsAtEnd(history, reader);
    var after := Stamped(base, d, |history| + 1);
    forall id: nat | id != d ensures ReadAt(after, id, reader) ==
        RowOf(rows, id) { TimeTravelById(history, reader, id); }
    if d < n - 1 {
      assert ReadAt(after, n - 1, reader) == Some(rows[n - 1]);
      assert RowOf(Erased(rows, d), n - 1) == None;
    } else {
      assert RowOf(Erased(rows, d), d) == None;
      assert forall id: nat :: id != d ==> RowOf(Erased(rows, d), id) == RowOf(rows, id);
    }
  }

  // ----- One change, from any state that agrees -----

  /** How many chains a history makes: as many as there were ever rows at once. */
  function Extent(history: seq<Change>): nat
    requires IsHistory(history)
  {
    if history == [] then 0
    else
      var before, now := Extent(history[..|history| - 1]), |RowsAfter(history)|;
      if now > before then now else before
  }

  lemma {:induction false} ChainsWithinExtent(history: seq<Change>)
    requires IsHistory(history)
    ensures |RowsAfter(history)| <= Extent(history)
    ensures forall id: nat :: id in VersionsAfter(history) <==> id < Extent(history)
    decreases |history|
  {
    if history != [] {
      ChainsWithinExtent(history[..|history| - 1]);
    }
  }

  /** What is left to see of a chain without its newest version. */
  function Beneath(versions: Versions, id: nat, reader: nat): Option<Row> {
    var chain := Chain(versions, id);
    if chain == [] then None else ReadChain(chain[..|chain| - 1], reader)
  }

  function Around(versions: Versions, id: nat, shown: Option<Row>, n: nat, reader: nat): seq<Row>
    requires id < n
  {
    VisibleRange(versions, 0, id, reader) + Opt(shown) + VisibleRange(versions, id + 1, n, reader)
  }

  /** A scan, split at one chain; changing that chain changes only what it shows. */
  lemma ScanAround(before: Versions, after: Versions, id: nat, n: nat, reader: nat)
    requires id < n && (forall k: nat :: k in after <==> k < n)
    requires forall k: nat :: k != id ==> Chain(after, k) == Chain(before, k)
    ensures VisibleRows(after, reader) == Around(before, id, ReadAt(after, id, reader), n, reader)
  {
    hide VisibleRows, ReadAt, Chain, VisibleRange;
    ScanIsRange(after, n, reader);
    RangeSplit(after, 0, id, n, reader);
    RangeSplit(after, id, id + 1, n, reader);
    RangeFrame(before, after, 0, id, reader);
    RangeFrame(before, after, id + 1, n, reader);
    OneShown(after, id, reader);
  }

  lemma OneShown(versions: Versions, id: nat, reader: nat)
    ensures VisibleRange(versions, id, id + 1, reader) == Opt(ReadAt(versions, id, reader))
  {
    assert VisibleRange(versions, id, id + 1, reader) ==
        VisibleRange(versions, id, id, reader) + Opt(ReadAt(versions, id, reader));
  }

  lemma {:induction false} AllShow(versions: Versions, lo: nat, hi: nat, reader: nat, row: Row)
    requires lo <= hi
    ensures (forall k :: 0 <= k < |VisibleRange(versions, lo, hi, reader)| ==>
        VisibleRange(versions, lo, hi, reader)[k] == row) <==>
      forall id: nat :: lo <= id < hi ==>
        ReadAt(versions, id, reader) == None || ReadAt(versions, id, reader) == Some(row)
    decreases hi
  {
    hide ReadAt;
    if lo < hi {
      AllShow(versions, lo, hi - 1, reader, row);
      var front, last := VisibleRange(versions, lo, hi - 1, reader), Opt(ReadAt(versions, hi - 1, reader));
      var whole := VisibleRange(versions, lo, hi, reader);
      assert whole == front + last;
      assert forall k :: 0 <= k < |front| ==> whole[k] == front[k];
      assert |last| == 1 ==> whole[|front|] == last[0];
    }
  }

  lemma {:induction false} AllVisible(versions: Versions, n: nat, reader: nat)
    ensures |VisibleRange(versions, 0, n, reader)| <= n
    ensures |VisibleRange(versions, 0, n, reader)| == n <==>
        forall id: nat :: id < n ==> ReadAt(versions, id, reader).Some?
  {
    hide ReadAt;
    if n > 0 {
      AllVisible(versions, n - 1, reader);
    }
  }

  lemma {:induction false} ConstantRotates(c: seq<Row>, row: Row)
    ensures [row] + c == c + [row] <==> forall k :: 0 <= k < |c| ==> c[k] == row
  {
    if c != [] {
      ConstantRotates(c[1..], row);
      assert c == [c[0]] + c[1..];
      assert forall k :: 0 < k < |c| ==> c[k] == c[1..][k - 1];
      if [row] + c == c + [row] {
        assert ([row] + c)[0] == (c + [row])[0];
        assert ([row] + c)[1..] == (c + [row])[1..];
        assert ([row] + c)[1..] == c && (c + [row])[1..] == c[1..] + [row];
      }
    }
  }

  lemma AppendedBetween(a: seq<Row>, s: seq<Row>, c: seq<Row>, row: Row)
    ensures a + [row] + c == a + s + c + [row] <==> s == [] && forall k :: 0 <= k < |c| ==> c[k] == row
  {
    ConstantRotates(c, row);
    if s == [] {
      assert a + [row] + c == a + ([row] + c) && a + s + c + [row] == a + (c + [row]);
      assert (a + ([row] + c))[|a|..] == [row] + c && (a + (c + [row]))[|a|..] == c + [row];
    } else {
      assert |a + [row] + c| != |a + s + c + [row]|;
    }
  }

  /**
   From any history whose newest scan is the row store, an INSERT keeps the agreement exactly when the chain it lands on
   shows nothing and every chain beyond it that shows anything shows the very row inserted.
   */
  lemma InsertKeepsScanExactly(history: seq<Change>, row: Row, reader: nat)
    requires IsHistory(history) && reader > |history|
    requires VisibleRows(VersionsAfter(history), reader) == RowsAfter(history)
    ensures IsHistory(history + [Appended(row)])
    ensures var versions, n := VersionsAfter(history), |RowsAfter(history)|;
      VisibleRows(VersionsAfter(history + [Appended(row)]), reader) == RowsAfter(history + [Appended(row)]) <==>
        && ReadAt(versions, n, reader) == None
        && forall id: nat :: n < id < Extent(history) ==>
            ReadAt(versions, id, reader) == None || ReadAt(versions, id, reader) == Some(row)
  {
    hide VisibleRows, ReadAt, VersionsAfter, RowsAfter, IsHistory, Extent, VisibleRange;
    var versions, rows, extent := VersionsAfter(history), RowsAfter(history), Extent(history);
    var n := |rows|;
    Extend(history, Appended(row));
    ChainsWithinExtent(history);
    var after := Written(versions, n, row, |history| + 1);
    ReadWritten(versions, n, row, |history| + 1, n, reader);
    var size := if n < extent then extent else n + 1;
    ScanAround(versions, after, n, size, reader);
    var a, c := VisibleRange(versions, 0, n, reader), VisibleRange(versions, n + 1, size, reader);
    AllShow(versions, n + 1, size, reader, row);
    if n < extent {
      ScanAround(versions, versions, n, size, reader);
    } else {
      ScanIsRange(versions, n, reader);
      NothingShown(versions, n, size, reader);
      assert a + [] + c == a;
    }
    AppendedBetween(a, Opt(ReadAt(versions, n, reader)), c, row);
  }

  lemma NothingShown(versions: Versions, n: nat, size: nat, reader: nat)
    requires n !in versions && size == n + 1
    ensures ReadAt(versions, n, reader) == None && VisibleRange(versions, n + 1, size, reader) == []
  {
  }

  lemma RewrittenBetween(a: seq<Row>, s: Option<Row>, c: seq<Row>, id: nat, row: Row)
    requires |a| <= id < |a + Opt(s) + c|
    ensures var rows := a + Opt(s) + c;
      a + [row] + c == rows[id := row] <==> s.Some? && (|a| == id || (s.value == row && rows[id] == row))
  {
    var rows := a + Opt(s) + c;
    var seen := a + [row] + c;
    if s.None? {
      assert |seen| != |rows|;
    } else if |a| == id {
      assert seen == rows[id := row];
    } else {
      assert seen[|a|] == row && rows[|a|] == s.value;
      assert seen[id] == rows[id];
      if s.value == row && rows[id] == row {
        assert seen == rows[id := row];
      }
    }
  }

  /**
   From any such history, an UPDATE of row `id` keeps the agreement exactly when chain `id` shows a row and either every
   chain below shows one, so that it is row `id`'s, or the new row is what chain and row both hold already.
   */
  lemma UpdateKeepsScanExactly(history: seq<Change>, id: nat, row: Row, reader: nat)
    requires IsHistory(history) && reader > |history| && id < |RowsAfter(history)|
    requires VisibleRows(VersionsAfter(history), reader) == RowsAfter(history)
    ensures IsHistory(history + [Rewritten(id, row)])
    ensures var versions, rows := VersionsAfter(history), RowsAfter(history);
      var seen := ReadAt(versions, id, reader);
      VisibleRows(VersionsAfter(history + [Rewritten(id, row)]), reader) ==
          RowsAfter(history + [Rewritten(id, row)]) <==>
        && seen.Some?
        && ((forall k: nat :: k < id ==> ReadAt(versions, k, reader).Some?) || (seen.value == row && rows[id] == row))
  {
    hide VisibleRows, ReadAt, VersionsAfter, RowsAfter, IsHistory, Extent, VisibleRange;
    var versions, rows, extent := VersionsAfter(history), RowsAfter(history), Extent(history);
    Extend(history, Rewritten(id, row));
    ChainsWithinExtent(history);
    var after := Written(versions, id, row, |history| + 1);
    ReadWritten(versions, id, row, |history| + 1, id, reader);
    ScanAround(versions, versions, id, extent, reader);
    ScanAround(versions, after, id, extent, reader);
    AllVisible(versions, id, reader);
    RewrittenBetween(VisibleRange(versions, 0, id, reader), ReadAt(versions, id, reader),
                     VisibleRange(versions, id + 1, extent, reader), id, row);
  }

  lemma ErasedAt(rows: seq<Row>, id: nat, k: nat)
    requires id < |rows| && k < |rows| - 1
    ensures |Erased(rows, id)| == |rows| - 1 && Erased(rows, id)[k] == if k < id then rows[k] else rows[k + 1]
  {
  }

  lemma {:induction false} SameBackwards(rows: seq<Row>, a: nat, id: nat, k: nat)
    requires a <= k <= id < |rows| && Erased(rows, a) == Erased(rows, id)
    ensures rows[k] == rows[id]
    decreases id - k
  {
    hide Erased;
    if k < id {
      ErasedAt(rows, a, k);
      ErasedAt(rows, id, k);
      SameBackwards(rows, a, id, k + 1);
    }
  }

  lemma ErasedEarlier(rows: seq<Row>, a: nat, id: nat)
    requires a <= id < |rows|
    ensures Erased(rows, a) == Erased(rows, id) <==> forall k :: a <= k <= id ==> rows[k] == rows[id]
  {
    hide Erased;
    var x, y := Erased(rows, a), Erased(rows, id);
    if x == y {
      forall k | a <= k <= id ensures rows[k] == rows[id] { SameBackwards(rows, a, id, k); }
    } else if forall k :: a <= k <= id ==> rows[k] == rows[id] {
      ErasedLength(rows, a);
      ErasedLength(rows, id);
      forall k: nat | k < |rows| - 1 ensures x[k] == y[k] {
        ErasedAt(rows, a, k);
        ErasedAt(rows, id, k);
      }
      assert false;
    }
  }

  lemma ErasedLength(rows: seq<Row>, id: nat)
    requires id < |rows|
    ensures |Erased(rows, id)| == |rows| - 1
  {
  }

  lemma DroppedBetween(a: seq<Row>, s: Option<Row>, under: Option<Row>, c: seq<Row>, id: nat)
    requires |a| <= id < |a + Opt(s) + c|
    ensures var rows := a + Opt(s) + c;
      a + Opt(under) + c == Erased(rows, id) <==>
        s.Some? && under.None? && forall k :: |a| <= k <= id ==> rows[k] == rows[id]
  {
    var rows := a + Opt(s) + c;
    if s.Some? && under.None? {
      assert a + [] + c == a + c;
      assert Erased(rows, |a|) == a + c;
      ErasedEarlier(rows, |a|, id);
    } else {
      assert |Opt(under)| >= |Opt(s)|;
      assert |a + Opt(under) + c| != |Erased(rows, id)|;
    }
  }

  /**
   From any such history, a delete at position `id` keeps the agreement exactly when chain `id` shows a row, shows
   nothing once its newest version is gone, and the rows from the one it shows down to position `id` are all equal.
   */
  lemma DropKeepsScanExactly(history: seq<Change>, id: nat, reader: nat)
    requires IsHistory(history) && reader > |history| && id < |RowsAfter(history)|
    requires VisibleRows(VersionsAfter(history), reader) == RowsAfter(history)
    ensures IsHistory(history + [Dropped(id)])
    ensures var versions, rows := VersionsAfter(history), RowsAfter(history);
      var shown := |VisibleRange(versions, 0, id, reader)|;
      VisibleRows(VersionsAfter(history + [Dropped(id)]), reader) == RowsAfter(history + [Dropped(id)]) <==>
        && ReadAt(versions, id, reader).Some? && Beneath(versions, id, reader).None?
        && forall k :: shown <= k <= id ==> rows[k] == rows[id]
  {
    hide VisibleRows, ReadAt, VersionsAfter, RowsAfter, IsHistory, Extent, VisibleRange, ReadChain;
    var versions, rows, extent := VersionsAfter(history), RowsAfter(history), Extent(history);
    Extend(history, Dropped(id));
    ChainsWithinExtent(history);
    var after := Stamped(versions, id, |history| + 1);
    ReadStamped(versions, id, |history| + 1, id, reader);
    StampedKeys(versions, id, |history| + 1);
    ReadEmpty(versions, id, reader);
    ScanAround(versions, versions, id, extent, reader);
    ScanAround(versions, after, id, extent, reader);
    AllVisible(versions, id, reader);
    DroppedBetween(VisibleRange(versions, 0, id, reader), ReadAt(versions, id, reader), Beneath(versions, id, reader),
                   VisibleRange(versions, id + 1, extent, reader), id);
  }

  lemma ReadEmpty(versions: Versions, id: nat, reader: nat)
    ensures Chain(versions, id) == [] ==> ReadAt(versions, id, reader) == None
  {
  }

  /**
   From any history whose chains read by id are the rows, inserts and updates keep that so, and a delete does exactly
   when it takes the last row and its chain shows nothing once the newest version is gone.
   */
  lemma ByIdStepExactly(history: seq<Change>, change: Change, reader: nat)
    requires IsHistory(history) && InRange(change, |RowsAfter(history)|) && reader > |history|
    requires Agrees(VersionsAfter(history), RowsAfter(history), reader)
    ensures IsHistory(history + [change])
    ensures Agrees(VersionsAfter(history + [change]), RowsAfter(history + [change]), reader) <==>
      (change.Dropped? ==>
        change.id == |RowsAfter(history)| - 1 && Beneath(VersionsAfter(history), change.id, reader).None?)
  {
    hide ReadAt, VersionsAfter, RowsAfter, IsHistory, ReadChain;
    var versions, rows, tick := VersionsAfter(history), RowsAfter(history), |history| + 1;
    Extend(history, change);
    if !change.Dropped? {
      var at := if change.Appended? then |rows| else change.id;
      forall id: nat ensures ReadAt(Written(versions, at, change.row, tick), id, reader) ==
          RowOf(ApplyTo(rows, change), id) {
        ReadWritten(versions, at, change.row, tick, id, reader);
      }
    } else {
      var after, d, n := Stamped(versions, change.id, tick), change.id, |rows|;
      ReadEmpty(versions, d, reader);
      forall id: nat ensures ReadAt(after, id, reader) == if id ==
          d then Beneath(versions, d, reader) else RowOf(rows, id) {
        ReadStamped(versions, d, tick, id, reader);
      }
      if d < n - 1 {
        assert ReadAt(after, n - 1, reader) == Some(rows[n - 1]) && RowOf(Erased(rows, d), n - 1) == None;
      } else {
        assert RowOf(Erased(rows, d), d) == None;
        assert forall id: nat :: id != d ==> RowOf(Erased(rows, d), id) == RowOf(rows, id);
      }
    }
  }

  // ----- Deletes seen wrongly -----

  /** Updated, then deleted: the row store is empty, but every later reader sees the overwritten row. */
  lemma ResurfacesExample()
    ensures var history := [Appended([Int(1)]), Rewritten(0, [Int(2)]), Dropped(0)];
      IsHistory(history) && RowsAfter(history) == [] && VisibleRows(VersionsAfter(history), 3) == [[Int(1)]]
  {
    hide VisibleRows, IsHistory, RowsAfter, VersionsAfter;
    var one, two := [Int(1)], [Int(2)];
    ThreeChanges(Appended(one), Rewritten(0, two), Dropped(0));
    ResurfacedView(Written(Written(map[], 0, one, 1), 0, two, 2), one, two);
  }

  lemma ResurfacedView(versions: Versions, one: Row, two: Row)
    requires versions == Written(Written(map[], 0, one, 1), 0, two, 2)
    ensures VisibleRows(Stamped(versions, 0, 3), 3) == [one]
  {
    hide VisibleRows, ReadChain, Stamped;
    ReadStamped(versions, 0, 3, 0, 3);
    assert versions[0][..1] == [RowVersion(1, None, one)];
    ReadIsNewest([RowVersion(1, None, one)], 3, 0);
    StampedKeys(versions, 0, 3);
    ScanIsRange(Stamped(versions, 0, 3), 1, 3);
    assert VisibleRange(Stamped(versions, 0, 3), 0, 0, 3) == [];
  }

  lemma StampedKeys(versions: Versions, id: nat, tick: nat)
    ensures Stamped(versions, id, tick).Keys == versions.Keys
  {
  }

  /**
   Deleting row 0 twice: the second delete restamps the first one's version, and the reader at tick 3 sees its row
   again.
   */
  lemma RestampsExample()
    ensures var history := [Appended([Int(1)]), Appended([Int(2)]), Dropped(0)];
      && IsHistory(history) && IsHistory(history + [Dropped(0)])
      && VisibleRows(VersionsAfter(history), 3) == [[Int(2)]]
      && VisibleRows(VersionsAfter(history + [Dropped(0)]), 3) == [[Int(1)], [Int(2)]]
  {
    hide IsHistory, RowsAfter, VersionsAfter, VisibleRows, Written, Stamped;
    var one, two := [Int(1)], [Int(2)];
    ThreeChanges(Appended(one), Appended(two), Dropped(0));
    Extend([Appended(one), Appended(two), Dropped(0)], Dropped(0));
    TwoWritten(one, two);
    RestampedViews(one, two);
  }

  lemma TwoWritten(one: Row, two: Row)
    ensures Written(Written(map[], 0, one, 1), 1, two, 2) ==
        map[0 := [RowVersion(1, None, one)], 1 := [RowVersion(2, None, two)]]
  {
    var a, b := RowVersion(1, None, one), RowVersion(2, None, two);
    assert [] + [a] == [a] && [] + [b] == [b];
  }

  lemma RestampedViews(one: Row, two: Row)
    ensures var v2 := map[0 := [RowVersion(1, None, one)], 1 := [RowVersion(2, None, two)]];
      var v3 := Stamped(v2, 0, 3);
      VisibleRows(v3, 3) == [two] && VisibleRows(Stamped(v3, 0, 4), 3) == [one, two]
  {
    hide VisibleRange, VisibleRows, SortedIds, ReadChain;
    var v2 := map[0 := [RowVersion(1, None, one)], 1 := [RowVersion(2, None, two)]];
    var v3 := Stamped(v2, 0, 3);
    var v4 := Stamped(v3, 0, 4);
    ScanIsRange(v3, 2, 3);
    ScanIsRange(v4, 2, 3);
    TwoRows(v3, 3);
    TwoRows(v4, 3);
    ReadStamped(v2, 0, 3, 0, 3);
    ReadStamped(v3, 0, 4, 0, 3);
    ReadNothing([], 3);
    ReadIsNewest([RowVersion(2, None, two)], 3, 0);
  }

  lemma TwoRows(versions: Versions, reader: nat)
    ensures VisibleRange(versions, 0, 2, reader) == Opt(ReadAt(versions, 0, reader)) + Opt(ReadAt(versions, 1, reader))
  {
    assert VisibleRange(versions, 0, 1, reader) ==
        VisibleRange(versions, 0, 0, reader) + Opt(ReadAt(versions, 0, reader));
  }

  lemma ThreeChanges(a: Change, b: Change, c: Change)
    requires a.Appended? && InRange(b, 1) && InRange(c, |ApplyTo([a.row], b)|)
    ensures IsHistory([a, b, c]) && RowsAfter([a, b, c]) == ApplyTo(ApplyTo([a.row], b), c)
    ensures VersionsAfter([a, b, c]) ==
        Recorded(Recorded(Written(map[], 0, a.row, 1), 1, b, 2), |ApplyTo([a.row], b)|, c, 3)
  {
    hide IsHistory, RowsAfter, VersionsAfter, Written, Stamped;
    NothingHeld();
    Extend([], a);
    assert [] + [a] == [a] && [a] + [b] == [a, b] && [a, b] + [c] == [a, b, c];
    assert [] + [a.row] == [a.row];
    Extend([a], b);
    Extend([a, b], c);
  }

  lemma NothingHeld()
    ensures IsHistory([]) && RowsAfter([]) == [] && VersionsAfter([]) == map[]
  {
  }

  /**
   No row was ever updated: after deleting the first of two rows the scan is right, and the next insert lands on the
   chain of the row that is left and hides it.
   */
  lemma InsertHidesExample()
    ensures var history := [Appended([Int(1)]), Appended([Int(2)]), Dropped(0)];
      && IsHistory(history + [Appended([Int(3)])])
      && RowsAfter(history) == [[Int(2)]] && VisibleRows(VersionsAfter(history), 4) == [[Int(2)]]
      && RowsAfter(history + [Appended([Int(3)])]) == [[Int(2)], [Int(3)]]
      && VisibleRows(VersionsAfter(history + [Appended([Int(3)])]), 4) == [[Int(3)]]
  {
    hide IsHistory, RowsAfter, VersionsAfter, VisibleRows, Written, Stamped;
    var one, two, three := [Int(1)], [Int(2)], [Int(3)];
    ThreeChanges(Appended(one), Appended(two), Dropped(0));
    assert [one] + [two] == [one, two] && Erased([one, two], 0) == [two] && [two] + [three] == [two, three];
    Extend([Appended(one), Appended(two), Dropped(0)], Appended(three));
    TwoWritten(one, two);
    HiddenView(one, two, three);
  }

  lemma HiddenView(one: Row, two: Row, three: Row)
    ensures var v2 := map[0 := [RowVersion(1, None, one)], 1 := [RowVersion(2, None, two)]];
      var v3 := Stamped(v2, 0, 3);
      VisibleRows(v3, 4) == [two] && VisibleRows(Written(v3, 1, three, 4), 4) == [three]
  {
    hide VisibleRange, VisibleRows, SortedIds, ReadChain;
    var v2 := map[0 := [RowVersion(1, None, one)], 1 := [RowVersion(2, None, two)]];
    var v3 := Stamped(v2, 0, 3);
    var v4 := Written(v3, 1, three, 4);
    ScanIsRange(v3, 2, 4);
    ScanIsRange(v4, 2, 4);
    TwoRows(v3, 4);
    TwoRows(v4, 4);
    ReadStamped(v2, 0, 3, 0, 4);
    ReadStamped(v2, 0, 3, 1, 4);
    ReadWritten(v3, 1, three, 4, 0, 4);
    ReadWritten(v3, 1, three, 4, 1, 4);
    ReadNothing([], 4);
    ReadIsNewest([RowVersion(2, None, two)], 4, 0);
  }
}
