/** src/storage/row_store.cpp: the plain and the paged row store, one sequence of rows behind both. */
module RowStores {
  import opened Results
  import opened Values
  import opened Bytes
  import opened Snapshot
  import opened BufferPools

  // ----- What a row store does to its rows -----

  function Erased(rows: seq<Row>, id: nat): seq<Row>
    requires id < |rows|
  {
    rows[..id] + rows[id + 1..]
  }

  /** The rows with the given ids; ids out of range are skipped. */
  function Picked(rows: seq<Row>, ids: seq<nat>): seq<Row> {
    if ids == [] then []
    else if ids[0] < |rows| then [rows[ids[0]]] + Picked(rows, ids[1..])
    else Picked(rows, ids[1..])
  }

  lemma {:induction false} PickedExtend(rows: seq<Row>, ids: seq<nat>, id: nat)
    ensures Picked(rows, ids + [id]) == Picked(rows, ids) + if id < |rows| then [rows[id]] else []
  {
    if ids != [] {
      assert (ids + [id])[1..] == ids[1..] + [id];
      PickedExtend(rows, ids[1..], id);
    } else {
      assert (ids + [id])[1..] == [];
    }
  }

  class VectorRowStore {
    var rows: seq<Row>

    constructor ()
      ensures rows == []
    {
      rows := [];
    }

    method Append(row: Row) returns (id: nat)
      modifies this
      ensures id == |old(rows)| && rows == old(rows) + [row]
    {
      rows := rows + [row];
      return |rows| - 1;
    }

    method Erase(id: nat) returns (erased: bool)
      modifies this
      ensures erased == (id < |old(rows)|)
      ensures rows == if erased then Erased(old(rows), id) else old(rows)
    {
      if id >= |rows| {
        return false;
      }
      rows := rows[..id] + rows[id + 1..];
      return true;
    }

    method Update(id: nat, row: Row) returns (updated: bool)
      modifies this
      ensures updated == (id < |old(rows)|)
      ensures rows == if updated then old(rows)[id := row] else old(rows)
    {
      if id >= |rows| {
        return false;
      }
      rows := rows[id := row];
      return true;
    }

    method RowsById(ids: seq<nat>) returns (picked: seq<Row>)
      ensures picked == Picked(rows, ids)
    {
      picked := [];
      for i := 0 to |ids|
        invariant picked == Picked(rows, ids[..i])
      {
        PickedExtend(rows, ids[..i], ids[i]);
        assert ids[..i + 1] == ids[..i] + [ids[i]];
        if ids[i] < |rows| {
          picked := picked + [rows[ids[i]]];
        }
      }
      assert ids[..|ids|] == ids;
    }
  }

  // ----- Pages -----

  function EncodePageRows(rows: seq<Row>): string {
    if rows == [] then "" else LittleEndian(|rows[0]|, 8) + EncodeRow(rows[0]) + EncodePageRows(rows[1..])
  }

  function PageBytes(rows: seq<Row>): string {
    LittleEndian(|rows|, 8) + EncodePageRows(rows)
  }

  function SerializePage(pageId: nat, rows: seq<Row>): Page {
    Page(pageId, PageBytes(rows), true)
  }

  function ReadPageRows(input: string, count: nat): Read<seq<Row>>
    decreases count
  {
    if count == 0 then Ok(([], input))
    else
      var width :- ReadUnsigned(input, 8);
      var row :- ReadRow(width.1, width.0);
      var rest :- ReadPageRows(row.1, count - 1);
      Ok(([row.0] + rest.0, rest.1))
  }

  function ReadPageBytes(bytes: string): Result<seq<Row>> {
    var count :- ReadUnsigned(bytes, 8);
    var rows :- ReadPageRows(count.1, count.0);
    Ok(rows.0)
  }

  predicate ShortPage(rows: seq<Row>) {
    |rows| < TWO_64 && ShortRows(rows) && forall i :: 0 <= i < |rows| ==> |rows[i]| < TWO_64
  }

  lemma {:induction false} ReadPageRowsBack(rows: seq<Row>, rest: string)
    requires ShortRows(rows) && forall i :: 0 <= i < |rows| ==> |rows[i]| < TWO_64
    ensures ReadPageRows(EncodePageRows(rows) + rest, |rows|) == Ok((rows, rest))
    decreases |rows|
  {
    Power256Values();
    hide ReadRow, EncodeRow, ReadUnsigned, LittleEndian, ShortRow;
    if rows == [] {
      assert EncodePageRows(rows) + rest == rest;
    } else {
      var tail := EncodePageRows(rows[1..]) + rest;
      assert EncodePageRows(rows) + rest == LittleEndian(|rows[0]|, 8) + (EncodeRow(rows[0]) + tail);
      ReadUnsignedBack(|rows[0]|, 8, EncodeRow(rows[0]) + tail);
      ReadRowBack(rows[0], tail);
      ReadPageRowsBack(rows[1..], rest);
      assert [rows[0]] + rows[1..] == rows;
    }
  }

  /** The page image determines the rows. */
  lemma PageRoundTrip(rows: seq<Row>)
    requires ShortPage(rows)
    ensures ReadPageBytes(PageBytes(rows)) == Ok(rows)
  {
    Power256Values();
    hide ReadUnsigned, LittleEndian, ReadPageRows, EncodePageRows, ShortRows;
    ReadUnsignedBack(|rows|, 8, EncodePageRows(rows));
    assert EncodePageRows(rows) + "" == EncodePageRows(rows);
    ReadPageRowsBack(rows, "");
  }

  lemma SerializeInjective(pageId: nat, a: seq<Row>, b: seq<Row>)
    requires ShortPage(a) && ShortPage(b) && SerializePage(pageId, a) == SerializePage(pageId, b)
    ensures a == b
  {
    hide PageBytes, ReadPageBytes, ShortPage;
    PageRoundTrip(a);
    PageRoundTrip(b);
  }

  // ----- Placement -----

  datatype Slot = Slot(pageId: nat, offset: nat)

  /** Where row `i` lives. */
  function SlotOf(i: nat, rowsPerPage: nat): Slot
    requires rowsPerPage > 0
  {
    Slot(i / rowsPerPage + 1, i % rowsPerPage)
  }

  /** How many of `n` rows page `p` holds: every page but the last is full. */
  function PageSize(n: nat, rowsPerPage: nat, p: nat): int {
    if p * rowsPerPage <= n then rowsPerPage else n - (p - 1) * rowsPerPage
  }

  /** Page `p` is in use when the first of its rows exists. */
  predicate InUse(n: nat, rowsPerPage: nat, p: nat) {
    p > 0 && (p - 1) * rowsPerPage < n
  }

  lemma SlotFacts(i: nat, rowsPerPage: nat)
    requires rowsPerPage > 0
    ensures i == (SlotOf(i, rowsPerPage).pageId - 1) * rowsPerPage + SlotOf(i, rowsPerPage).offset
    ensures SlotOf(i, rowsPerPage).offset < rowsPerPage
  {
  }

  lemma SlotsDiffer(i: nat, j: nat, rowsPerPage: nat)
    requires rowsPerPage > 0 && SlotOf(i, rowsPerPage) == SlotOf(j, rowsPerPage)
    ensures i == j
  {
    SlotFacts(i, rowsPerPage);
    SlotFacts(j, rowsPerPage);
  }

  /** The page of the next row is the one page whose size the new row changes. */
  lemma PageSizeStep(n: nat, rowsPerPage: nat, p: nat)
    requires rowsPerPage > 0 && p > 0
    ensures var next := SlotOf(n, rowsPerPage);
      && (InUse(n + 1, rowsPerPage, p) <==> InUse(n, rowsPerPage, p) || p == next.pageId)
      && (p != next.pageId && InUse(n, rowsPerPage, p) ==>
          PageSize(n + 1, rowsPerPage, p) == PageSize(n, rowsPerPage, p))
      && (p == next.pageId ==> PageSize(n + 1, rowsPerPage, p) == next.offset + 1)
      && (p == next.pageId ==> (InUse(n, rowsPerPage, p) <==> next.offset > 0))
      && (p == next.pageId && InUse(n, rowsPerPage, p) ==> PageSize(n, rowsPerPage, p) == next.offset)
  {
    var next := SlotOf(n, rowsPerPage);
    var q := next.pageId;
    SlotFacts(n, rowsPerPage);
    assert q * rowsPerPage == (q - 1) * rowsPerPage + rowsPerPage;
    assert p * rowsPerPage == (p - 1) * rowsPerPage + rowsPerPage;
    if p < q {
      assert p <= q - 1;
      assert p * rowsPerPage <= (q - 1) * rowsPerPage;
    } else if p > q {
      assert q <= p - 1;
      assert q * rowsPerPage <= (p - 1) * rowsPerPage;
    }
  }

  predicate Located(slot: Slot, pages: map<nat, seq<Row>>, row: Row) {
    slot.pageId in pages && slot.offset < |pages[slot.pageId]| && pages[slot.pageId][slot.offset] == row
  }

  /** Slots and pages hold exactly `rows`, row `i` in slot `(i / rowsPerPage + 1, i % rowsPerPage)`. */
  ghost predicate Placed(slots: seq<Slot>, pages: map<nat, seq<Row>>, rows: seq<Row>, rowsPerPage: nat)
    requires rowsPerPage > 0
  {
    && |slots| == |rows|
    && (forall i :: 0 <= i < |slots| ==> slots[i] == SlotOf(i, rowsPerPage) && Located(slots[i], pages, rows[i]))
    && (forall p :: p in pages <==> InUse(|rows|, rowsPerPage, p))
    && (forall p :: p in pages ==> |pages[p]| == PageSize(|rows|, rowsPerPage, p))
  }

  function PageRows(pages: map<nat, seq<Row>>, p: nat): seq<Row> {
    if p in pages then pages[p] else []
  }

  lemma AppendPlaced(slots: seq<Slot>, pages: map<nat, seq<Row>>, rows: seq<Row>, rowsPerPage: nat, row: Row)
    requires rowsPerPage > 0 && Placed(slots, pages, rows, rowsPerPage)
    ensures var p := |slots| / rowsPerPage + 1;
      Placed(slots + [Slot(p, |PageRows(pages, p)|)], pages[p := PageRows(pages, p) + [row]], rows + [row], rowsPerPage)
  {
    hide InUse, PageSize, SlotOf;
    var n := |rows|;
    var next := SlotOf(n, rowsPerPage);
    SlotOfIs(n, rowsPerPage);
    var p := next.pageId;
    PageSizeStep(n, rowsPerPage, p);
    var pages' := pages[p := PageRows(pages, p) + [row]];
    assert |PageRows(pages, p)| == next.offset;
    PagesAfter(pages, n, rowsPerPage, row);
    forall i | 0 <= i < n + 1 ensures Located((slots + [next])[i], pages', (rows + [row])[i]) {
      if i < n { assert Located(slots[i], pages, rows[i]); }
    }
  }

  lemma PagesAfter(pages: map<nat, seq<Row>>, n: nat, rowsPerPage: nat, row: Row)
    requires rowsPerPage > 0
    requires forall p :: p in pages <==> InUse(n, rowsPerPage, p)
    requires forall p :: p in pages ==> |pages[p]| == PageSize(n, rowsPerPage, p)
    ensures var next := SlotOf(n, rowsPerPage).pageId;
      var pages' := pages[next := PageRows(pages, next) + [row]];
      && (forall p :: p in pages' <==> InUse(n + 1, rowsPerPage, p))
      && (forall p :: p in pages' ==> |pages'[p]| == PageSize(n + 1, rowsPerPage, p))
  {
    hide InUse, PageSize, SlotOf;
    var next := SlotOf(n, rowsPerPage).pageId;
    SlotOfIs(n, rowsPerPage);
    NoPageZero(n, rowsPerPage);
    NoPageZero(n + 1, rowsPerPage);
    var pages' := pages[next := PageRows(pages, next) + [row]];
    forall p: nat
      ensures p in pages' <==> InUse(n + 1, rowsPerPage, p)
      ensures p in pages' ==> |pages'[p]| == PageSize(n + 1, rowsPerPage, p)
    {
      if p > 0 { PageSizeStep(n, rowsPerPage, p); }
    }
  }

  lemma SlotOfIs(i: nat, rowsPerPage: nat)
    requires rowsPerPage > 0
    ensures SlotOf(i, rowsPerPage) == Slot(i / rowsPerPage + 1, i % rowsPerPage)
  {
  }

  lemma NoPageZero(n: nat, rowsPerPage: nat)
    ensures !InUse(n, rowsPerPage, 0)
  {
  }

  lemma UpdatePlaced(slots: seq<Slot>, pages: map<nat, seq<Row>>, rows: seq<Row>, rowsPerPage: nat, id: nat, row: Row)
    requires rowsPerPage > 0 && Placed(slots, pages, rows, rowsPerPage) && id < |rows|
    ensures Located(slots[id], pages, rows[id])
    ensures var slot := slots[id];
      Placed(slots, pages[slot.pageId := pages[slot.pageId][slot.offset := row]], rows[id := row], rowsPerPage)
  {
    hide InUse, PageSize, SlotOf;
    var slot := slots[id];
    var pages' := pages[slot.pageId := pages[slot.pageId][slot.offset := row]];
    forall i | 0 <= i < |rows| ensures Located(slots[i], pages', rows[id := row][i]) {
      assert Located(slots[i], pages, rows[i]);
      if i != id && slots[i] == slot {
        SlotsDiffer(i, id, rowsPerPage);
      }
    }
  }

  // ----- The paged store -----

  class PageRowStore {
    const rowsPerPage: nat
    const bufferPool: BufferPool
    var slots: seq<Slot>
    var pages: map<nat, seq<Row>>
    /** The rows as a plain sequence. */
    ghost var rows: seq<Row>

    /** Slots and pages hold `rows`, and the page last put in the pool for every page in use is its current image. */
    ghost predicate Valid()
      reads this, bufferPool
    {
      && rowsPerPage > 0
      && Placed(slots, pages, rows, rowsPerPage)
      && bufferPool.Valid()
      && Cached()
    }

    ghost predicate Cached()
      reads this, bufferPool
    {
      forall p :: p in pages ==> p in bufferPool.latest && bufferPool.latest[p] == SerializePage(p, pages[p])
    }

    constructor (rowsPerPage: nat, bufferPageCapacity: nat)
      requires rowsPerPage > 0 && bufferPageCapacity > 0
      ensures Valid() && rows == [] && this.rowsPerPage == rowsPerPage && fresh(bufferPool)
    {
      this.rowsPerPage := rowsPerPage;
      this.bufferPool := new BufferPool(bufferPageCapacity);
      this.slots := [];
      this.pages := map[];
      this.rows := [];
      new;
      NothingInUse(rowsPerPage);
    }

    method Append(row: Row) returns (id: nat)
      requires Valid()
      modifies this, bufferPool
      ensures Valid() && id == |old(rows)| && rows == old(rows) + [row]
    {
      hide Placed, PageBytes;
      AppendPlaced(slots, pages, rows, rowsPerPage, row);
      SameLength(slots, pages, rows, rowsPerPage);
      id := |slots|;
      var pageId := id / rowsPerPage + 1;
      var pageRows := if pageId in pages then pages[pageId] else [];
      slots := slots + [Slot(pageId, |pageRows|)];
      pageRows := pageRows + [row];
      pages := pages[pageId := pageRows];
      rows := rows + [row];
      bufferPool.Put(SerializePage(pageId, pageRows));
    }

    method Update(id: nat, row: Row) returns (updated: bool)
      requires Valid()
      modifies this, bufferPool
      ensures Valid() && updated == (id < |old(rows)|)
      ensures rows == if updated then old(rows)[id := row] else old(rows)
    {
      hide Placed, PageBytes;
      SameLength(slots, pages, rows, rowsPerPage);
      if id >= |slots| {
        return false;
      }
      UpdatePlaced(slots, pages, rows, rowsPerPage, id, row);
      var slot := slots[id];
      pages := pages[slot.pageId := pages[slot.pageId][slot.offset := row]];
      rows := rows[id := row];
      bufferPool.Put(SerializePage(slot.pageId, pages[slot.pageId]));
      return true;
    }

    /** Erasing rebuilds every page from the remaining rows. */
    method Erase(id: nat) returns (erased: bool)
      requires Valid()
      modifies this, bufferPool
      ensures Valid() && erased == (id < |old(rows)|)
      ensures rows == if erased then Erased(old(rows), id) else old(rows)
    {
      hide Placed;
      SameLength(slots, pages, rows, rowsPerPage);
      if id >= |slots| {
        return false;
      }
      var remaining := RowsSnapshot();
      remaining := remaining[..id] + remaining[id + 1..];
      ReplaceRows(remaining);
      return true;
    }

    method ReplaceRows(newRows: seq<Row>)
      requires Valid()
      modifies this, bufferPool
      ensures Valid() && rows == newRows
    {
      hide Placed;
      NothingInUse(rowsPerPage);
      pages := map[];
      slots := [];
      rows := [];
      for i := 0 to |newRows|
        invariant Valid() && rows == newRows[..i]
      {
        var _ := Append(newRows[i]);
        assert newRows[..i + 1] == newRows[..i] + [newRows[i]];
      }
      assert newRows[..|newRows|] == newRows;
    }

    method Get(id: nat) returns (row: Option<Row>)
      requires Valid()
      ensures row == if id < |rows| then Some(rows[id]) else None
    {
      if id >= |slots| {
        return None;
      }
      var slot := slots[id];
      assert Located(slot, pages, rows[id]);
      if slot.pageId !in pages || slot.offset >= |pages[slot.pageId]| {
        return None;
      }
      return Some(pages[slot.pageId][slot.offset]);
    }

    method RowsSnapshot() returns (all: seq<Row>)
      requires Valid()
      ensures all == rows
    {
      hide InUse, PageSize, SlotOf, BufferPool.Valid, SerializePage;
      all := [];
      for i := 0 to |slots|
        invariant all == rows[..i]
      {
        var slot := slots[i];
        assert Located(slot, pages, rows[i]);
        if slot.pageId in pages && slot.offset < |pages[slot.pageId]| {
          all := all + [pages[slot.pageId][slot.offset]];
        }
      }
    }

    method RowsById(ids: seq<nat>) returns (picked: seq<Row>)
      requires Valid()
      ensures picked == Picked(rows, ids)
    {
      hide Placed;
      picked := [];
      for i := 0 to |ids|
        invariant picked == Picked(rows, ids[..i])
      {
        PickedExtend(rows, ids[..i], ids[i]);
        assert ids[..i + 1] == ids[..i] + [ids[i]];
        var row := Get(ids[i]);
        if row.Some? {
          picked := picked + [row.value];
        }
      }
      assert ids[..|ids|] == ids;
    }

    method Size() returns (n: nat)
      requires Valid()
      ensures n == |rows|
    {
      return |slots|;
    }
  }

  lemma NothingInUse(rowsPerPage: nat)
    requires rowsPerPage > 0
    ensures Placed([], map[], [], rowsPerPage)
  {
    forall p: nat ensures !InUse(0, rowsPerPage, p) {
      if p > 0 { assert (p - 1) * rowsPerPage >= 0; }
    }
  }

  lemma SameLength(slots: seq<Slot>, pages: map<nat, seq<Row>>, rows: seq<Row>, rowsPerPage: nat)
    requires rowsPerPage > 0 && Placed(slots, pages, rows, rowsPerPage)
    ensures |slots| == |rows|
  {
  }

  /** In every reachable store, a page in use that is still cached is cached as exactly its current rows. */
  lemma CacheAgrees(store: PageRowStore, p: nat)
    requires store.Valid() && p in store.pages && p in store.bufferPool.pages
    ensures store.bufferPool.pages[p] == SerializePage(p, store.pages[p])
  {
  }
}
