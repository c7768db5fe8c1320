/**
 src/execution/query_executor.cpp and src/planner/query_planner.cpp on one table: the loops of INSERT, UPDATE and
 DELETE, and the access path a SELECT reads through.
 */
module Statements {
  import opened Results
  import opened Values
  import opened Ast
  import opened Relations
  import opened Indexes
  import opened BTreeIndexes
  import opened RowStores
  import opened Mvcc
  import opened AccessPaths
  import opened Tables
  import opened Joins

  // ----- UPDATE -----

  function Counted(changed: Changed, n: nat): Changed {
    changed.(count := changed.count + n)
  }

  /** UPDATE on a table value; an unknown target column throws first. */
  function UpdateOf(t: TableV, column: string, value: Value, where: Option<Predicate>): Changed {
    var target := ColumnIndex(t.schema, column);
    if target.None? then Changed(t.rows, 0, true) else UpdateFrom(t.schema, t.rows, target.value, value, where, 0)
  }

  method ExecuteUpdate(table: Table, column: string, value: Value, where: Option<Predicate>) returns (r: Result<nat>)
    requires table.Valid()
    modifies table.Repr
    ensures table.Valid() && table.Repr == old(table.Repr)
    ensures var changed := UpdateOf(old(table.View()), column, value, where);
      && table.View() == old(table.View()).(rows := changed.rows)
      && r == (if changed.threw then Err else Ok(changed.count))
    ensures DeleteFree(old(table.history)) ==> DeleteFree(table.history)
  {
    hide Table.Valid, UpdateFrom, DeleteFree;
    table.ValidOwns();
    var target := ColumnIndex(table.schema, column);
    if target.None? {
      return Err;
    }
    r := UpdateRows(table, target.value, value, where);
  }

  /** Runs the loop on the table; a throw leaves the rows changed so far. */
  method UpdateRows(table: Table, target: nat, value: Value, where: Option<Predicate>) returns (r: Result<nat>)
    requires table.Valid() && target < |table.schema|
    modifies table`nextVersion, table`history, table.rowStore, table.rowStore.bufferPool, table.versions,
        table.indexes.Values, table.orderedIndexes.Values
    ensures table.Valid()
    ensures var changed := UpdateFrom(table.schema, old(table.View()).rows, target, value, where, 0);
      && table.View() == old(table.View()).(rows := changed.rows)
      && r == (if changed.threw then Err else Ok(changed.count))
    ensures DeleteFree(old(table.history)) ==> DeleteFree(table.history)
  {
    hide Table.Valid, MatchesWhere, UpdateFrom, FitsColumn, Assign, DeleteFree;
    ghost var whole := UpdateFrom(table.schema, table.rowStore.rows, target, value, where, 0);
    var count := 0;
    var snapshot := table.RowsSnapshot();
    for id := 0 to |snapshot|
      invariant table.Valid() && |table.rowStore.rows| == |snapshot|
      invariant forall j :: id <= j < |snapshot| ==> table.rowStore.rows[j] == snapshot[j]
      invariant whole == Counted(UpdateFrom(table.schema, table.rowStore.rows, target, value, where, id), count)
      invariant DeleteFree(old(table.history)) ==> DeleteFree(table.history)
    {
      UpdateStep(table.schema, table.rowStore.rows, target, value, where, id);
      var hit := UpdateRow(table, id, snapshot[id], target, value, where);
      if hit.Err? {
        return Err;
      }
      if hit.value {
        count := count + 1;
      }
    }
    UpdateEnds(table.schema, table.rowStore.rows, target, value, where);
    return Ok(count);
  }

  /** One turn of the loop. */
  method UpdateRow(table: Table, id: nat, row: Row, target: nat, value: Value, where: Option<Predicate>)
      returns (hit: Result<bool>)
    requires table.Valid() && target < |table.schema| && id < |table.View().rows| && row == table.View().rows[id]
    modifies table`nextVersion, table`history, table.rowStore, table.rowStore.bufferPool, table.versions,
        table.indexes.Values, table.orderedIndexes.Values
    ensures table.Valid()
    ensures hit == if UpdateFails(table.schema, row, target, value, where) then Err else MatchesWhere(table.schema,
        row, where)
    ensures table.View() == if hit ==
        Ok(true) then old(table.View()).(rows := old(table.View()).rows[id := Assign(row, target,
        value)]) else old(table.View())
    ensures DeleteFree(old(table.history)) ==> DeleteFree(table.history)
  {
    hide Table.Valid, MatchesWhere, FitsColumn, Assign, DeleteFree;
    hit := MatchesWhere(table.schema, row, where);
    if hit.Err? || !hit.value {
      return;
    }
    DeleteFreeExtend(table.history, Rewritten(id, Assign(row, target, value)));
    hit := table.Update(id, target, value);
  }

  lemma UpdateStep(schema: seq<Column>, rows: seq<Row>, target: nat, value: Value, where: Option<Predicate>, i: nat)
    requires target < |schema| && i < |rows|
    ensures var matched := MatchesWhere(schema, rows[i], where);
      UpdateFrom(schema, rows, target, value, where, i) ==
        if matched.Err? then Changed(rows, 0, true)
        else if !matched.value then UpdateFrom(schema, rows, target, value, where, i + 1)
        else if !FitsColumn(schema[target], value) then Changed(rows, 0, true)
        else Counted(UpdateFrom(schema, rows[i := Assign(rows[i], target, value)], target, value, where, i + 1), 1)
  {
  }

  lemma UpdateEnds(schema: seq<Column>, rows: seq<Row>, target: nat, value: Value, where: Option<Predicate>)
    requires target < |schema|
    ensures UpdateFrom(schema, rows, target, value, where, |rows|) == Changed(rows, 0, false)
  {
  }

  lemma DeleteFreeExtend(history: seq<Change>, change: Change)
    ensures DeleteFree(history + [change]) <==> DeleteFree(history) && !change.Dropped?
  {
    assert forall i :: 0 <= i < |history| ==> (history + [change])[i] == history[i];
    assert (history + [change])[|history|] == change;
  }

  // ----- DELETE -----

  /** The positions the DELETE loop erases, in the order it does so. */
  function DeletedIds(schema: seq<Column>, rows: seq<Row>, where: Option<Predicate>, i: nat): seq<nat>
    requires i <= |rows|
  {
    if i == 0 then []
    else
      var matched := MatchesWhere(schema, rows[i - 1], where);
      if matched.Err? then []
      else (if matched.value then [i - 1] else []) + DeletedIds(schema, rows, where, i - 1)
  }

  method ExecuteDelete(table: Table, where: Option<Predicate>) returns (r: Result<nat>)
    requires table.Valid()
    modifies table.Repr
    ensures table.Valid() && table.Repr == old(table.Repr)
    ensures var before := old(table.View()).rows;
      var changed := DeleteFrom(table.schema, before, where, |before|);
      && table.View() == old(table.View()).(rows := changed.rows)
      && r == (if changed.threw then Err else Ok(changed.count))
      && table.history == old(table.history) + Drops(DeletedIds(table.schema, before, where, |before|))
  {
    hide Table.Valid, DeleteFrom, DeletedIds, Drops;
    table.ValidOwns();
    r := DeleteRows(table, where);
  }

  /** Runs the loop on the table from the last row to the first; a throw leaves the rows erased so far. */
  method DeleteRows(table: Table, where: Option<Predicate>) returns (r: Result<nat>)
    requires table.Valid()
    modifies table`nextVersion, table`history, table.rowStore, table.rowStore.bufferPool, table.versions,
        table.indexes.Values, table.orderedIndexes.Values
    ensures table.Valid()
    ensures var before := old(table.View()).rows;
      var changed := DeleteFrom(table.schema, before, where, |before|);
      && table.View() == old(table.View()).(rows := changed.rows)
      && r == (if changed.threw then Err else Ok(changed.count))
      && table.history == old(table.history) + Drops(DeletedIds(table.schema, before, where, |before|))
  {
    hide Table.Valid, MatchesWhere, DeleteFrom, DeletedIds, Drops;
    ghost var start := table.rowStore.rows;
    ghost var n := |start|;
    ghost var whole := DeleteFrom(table.schema, start, where, n);
    ghost var ids := DeletedIds(table.schema, start, where, n);
    ghost var gone: seq<nat> := [];
    var count := 0;
    var snapshot := table.RowsSnapshot();
    var id := |snapshot|;
    DropsNone(table.history);
    assert [] + ids == ids;
    while id > 0
      invariant 0 <= id <= |snapshot| && id <= |table.rowStore.rows|
      invariant table.Valid()
      invariant forall j :: 0 <= j < id ==> table.rowStore.rows[j] == snapshot[j]
      invariant whole == Counted(DeleteFrom(table.schema, table.rowStore.rows, where, id), count)
      invariant ids == gone + DeletedIds(table.schema, snapshot, where, id) &&
          table.history == old(table.history) + Drops(gone)
    {
      DeleteStep(table.schema, table.rowStore.rows, where, id);
      DeletedStep(table.schema, snapshot, where, id, gone);
      id := id - 1;
      DropsExtend(old(table.history), gone, id);
      var hit := DeleteRow(table, id, snapshot[id], where);
      if hit.Err? {
        return Err;
      }
      if hit.value {
        gone := gone + [id];
        count := count + 1;
      }
    }
    DeleteEnds(table.schema, table.rowStore.rows, where);
    DeletedEnds(table.schema, snapshot, where, gone);
    return Ok(count);
  }

  /** One turn of the loop. */
  method DeleteRow(table: Table, id: nat, row: Row, where: Option<Predicate>) returns (hit: Result<bool>)
    requires table.Valid() && id < |table.View().rows|
    modifies table`nextVersion, table`history, table.rowStore, table.rowStore.bufferPool, table.versions,
        table.indexes.Values, table.orderedIndexes.Values
    ensures table.Valid() && hit == MatchesWhere(table.schema, row, where)
    ensures var rows := old(table.View()).rows;
      table.View() == old(table.View()).(rows := if hit == Ok(true) then Erased(rows, id) else rows)
    ensures table.history == if hit == Ok(true) then old(table.history) + [Dropped(id)] else old(table.history)
  {
    hide Table.Valid, MatchesWhere;
    hit := MatchesWhere(table.schema, row, where);
    if hit == Ok(true) {
      var _ := table.Erase(id);
    }
  }

  lemma DeleteStep(schema: seq<Column>, rows: seq<Row>, where: Option<Predicate>, i: nat)
    requires 0 < i <= |rows|
    ensures var matched := MatchesWhere(schema, rows[i - 1], where);
      DeleteFrom(schema, rows, where, i) ==
        if matched.Err? then Changed(rows, 0, true)
        else if !matched.value then DeleteFrom(schema, rows, where, i - 1)
        else Counted(DeleteFrom(schema, Erased(rows, i - 1), where, i - 1), 1)
  {
  }

  lemma DeleteEnds(schema: seq<Column>, rows: seq<Row>, where: Option<Predicate>)
    ensures DeleteFrom(schema, rows, where, 0) == Changed(rows, 0, false)
  {
  }

  lemma DeletedStep(schema: seq<Column>, rows: seq<Row>, where: Option<Predicate>, i: nat, gone: seq<nat>)
    requires 0 < i <= |rows|
    ensures var matched := MatchesWhere(schema, rows[i - 1], where);
      gone + DeletedIds(schema, rows, where, i) ==
        if matched.Err? then gone
        else if matched.value then (gone + [i - 1]) + DeletedIds(schema, rows, where, i - 1)
        else gone + DeletedIds(schema, rows, where, i - 1)
  {
  }

  lemma DeletedEnds(schema: seq<Column>, rows: seq<Row>, where: Option<Predicate>, gone: seq<nat>)
    ensures gone + DeletedIds(schema, rows, where, 0) == gone
  {
  }

  lemma DropsNone(history: seq<Change>)
    ensures history + Drops([]) == history
  {
  }

  lemma {:induction false} DeletedDescend(schema: seq<Column>, rows: seq<Row>, where: Option<Predicate>, i: nat)
    requires i <= |rows|
    ensures Descending(DeletedIds(schema, rows, where, i), i)
  {
    hide MatchesWhere;
    if i > 0 {
      DeletedDescend(schema, rows, where, i - 1);
    }
  }

  /** With resolvable columns the positions erased are exactly those of the selected rows. */
  lemma {:induction false} DeletedSelected(schema: seq<Column>, rows: seq<Row>, where: Option<Predicate>, i: nat,
      k: nat)
    requires i <= |rows| && ValidRows(schema, rows) && WhereResolves(schema, where)
    ensures k in DeletedIds(schema, rows, where, i) <==> k < i && Selected(schema, rows[k], where)
    decreases i
  {
    if i > 0 {
      DeletedSelected(schema, rows, where, i - 1, k);
      WhereIsLogic(schema, rows[i - 1], where);
    }
  }

  /**
   What readers inside a transaction see after a DELETE on a table that had none before: exactly the remaining rows when
   no selected row had been updated since the table was created or refilled, and otherwise something else.
   */
  lemma DeleteViewExactly(schema: seq<Column>, history: seq<Change>, where: Option<Predicate>, reader: nat)
    requires IsHistory(history) && DeleteFree(history)
    requires ValidRows(schema, RowsAfter(history)) && WhereResolves(schema, where)
    requires reader >= |history| + |RowsAfter(history)|
    ensures var rows := RowsAfter(history);
      var after := history + Drops(DeletedIds(schema, rows, where, |rows|));
      && IsHistory(after)
      && (VisibleRows(VersionsAfter(after), reader) == RowsAfter(after) <==>
          forall k :: 0 <= k < |rows| && Selected(schema, rows[k], where) ==> |Chain(VersionsAfter(history), k)| == 1)
  {
    hide IsHistory, RowsAfter, VersionsAfter, VisibleRows, DeletedIds, Selected, MatchesWhere, ValidRows;
    var rows := RowsAfter(history);
    var ids := DeletedIds(schema, rows, where, |rows|);
    DeletedDescend(schema, rows, where, |rows|);
    DescendingShort(ids, |rows|);
    DeleteKeepsScanExactly(history, ids, reader);
    forall k: nat ensures k in ids <==> k < |rows| && Selected(schema, rows[k], where) {
      DeletedSelected(schema, rows, where, |rows|, k);
    }
  }

  lemma {:induction false} DescendingShort(ids: seq<nat>, n: nat)
    requires Descending(ids, n)
    ensures |ids| <= n
    decreases |ids|
  {
    if ids != [] {
      DescendingShort(ids[1..], ids[0]);
    }
  }

  // ----- INSERT -----

  /** All rows are validated before the first is stored: a bad row leaves the table as it was. */
  method ExecuteInsert(table: Table, rows: seq<Row>) returns (ok: bool)
    requires table.Valid()
    modifies table.Repr
    ensures table.Valid() && table.Repr == old(table.Repr) && ok == ValidRows(table.schema, rows)
    ensures table.View() == if ok then old(table.View()).(rows := old(table.View()).rows + rows) else old(table.View())
    ensures table.history == if ok then old(table.history) + Appends(rows) else old(table.history)
  {
    hide Table.Valid, ValidRows, Appends;
    table.ValidOwns();
    ok := InsertRows(table, rows);
  }

  method ExecuteCreateIndex(table: Table, indexName: string, column: string) returns (created: bool)
    requires table.Valid()
    modifies table.Repr
    ensures table.Valid() && old(table.Repr) <= table.Repr && fresh(table.Repr - old(table.Repr))
    ensures (table.View(), created) == CreateIndexOn(old(table.View()), indexName, column)
    ensures table.history == old(table.history)
  {
    hide Table.Valid, CreateIndexOn;
    table.ValidOwns();
    created := table.CreateIndex(indexName, column);
  }

  method InsertRows(table: Table, rows: seq<Row>) returns (ok: bool)
    requires table.Valid()
    modifies table`nextVersion, table`history, table.rowStore, table.rowStore.bufferPool, table.versions,
        table.indexes.Values, table.orderedIndexes.Values
    ensures table.Valid() && ok == ValidRows(table.schema, rows)
    ensures table.View() == if ok then old(table.View()).(rows := old(table.View()).rows + rows) else old(table.View())
    ensures table.history == if ok then old(table.history) + Appends(rows) else old(table.history)
  {
    hide Table.Valid, ValidRow, Appends;
    ok := table.ValidateRows(rows);
    if !ok {
      return;
    }
    ghost var start := table.View();
    AppendsNone();
    assert start.rows + [] == start.rows && table.history + [] == table.history;
    for i := 0 to |rows|
      invariant table.Valid() && table.View().rows == start.rows + rows[..i]
      invariant table.history == old(table.history) + Appends(rows[..i])
    {
      var _ := table.Insert(rows[i]);
      AppendsExtend(old(table.history), rows, i);
      assert (start.rows + rows[..i]) + [rows[i]] == start.rows + rows[..i + 1];
    }
    assert rows[..|rows|] == rows;
  }

  lemma AppendsNone()
    ensures forall rows :: rows == [] ==> Appends(rows) == []
  {
  }

  lemma AppendsExtend(history: seq<Change>, rows: seq<Row>, i: nat)
    requires i < |rows|
    ensures (history + Appends(rows[..i])) + [Appended(rows[i])] == history + Appends(rows[..i + 1])
  {
  }

  // ----- SELECT's access path -----

  datatype AccessPath = FullScan | HashIndexLookup | OrderedIndexRange

  /** `planSelect`: an index serves a WHERE clause that is one comparison on its column. */
  function PlanSelect(schema: seq<Column>, indexColumns: map<string, nat>, where: Option<Predicate>): AccessPath {
    if where.None? || !where.value.Comparison? then FullScan
    else if !HasIndexOn(schema, indexColumns, where.value.column) then FullScan
    else if where.value.op == EqualTo then HashIndexLookup
    else OrderedIndexRange
  }

  /** An index serves exactly the single comparisons on its column: equality by hash, the others in key order. */
  lemma PlanExactly(schema: seq<Column>, indexColumns: map<string, nat>, where: Option<Predicate>)
    ensures var plan := PlanSelect(schema, indexColumns, where);
      var served := where.Some? && where.value.Comparison? &&
        exists n :: n in indexColumns && indexColumns[n] < |schema| &&
          schema[indexColumns[n]].name == where.value.column;
      && (plan == HashIndexLookup <==> served && where.value.op == EqualTo)
      && (plan == OrderedIndexRange <==> served && where.value.op != EqualTo)
  {
  }

  // ----- What a reader sees -----

  /** A scan as the reader gets it: the row store outside a transaction, the version chains inside one. */
  ghost function ScanView(table: Table, reader: Option<nat>): seq<Row>
    requires IsHistory(table.history)
    reads table, table.rowStore
  {
    if reader.Some? then VisibleRows(VersionsAfter(table.history), reader.value) else table.View().rows
  }

  /** A lookup by row ids as the reader gets it. */
  ghost function IdView(table: Table, reader: Option<nat>, ids: seq<nat>): seq<Row>
    requires IsHistory(table.history)
    reads table, table.rowStore
  {
    if reader.Some? then VisibleIn(VersionsAfter(table.history), ids, reader.value) else Picked(table.View().rows, ids)
  }

  /**
   What `collectRows` returns, in every state: rows or exception of the path the planner picks, as the reader sees them.
   */
  ghost function Collected(table: Table, where: Option<Predicate>, reader: Option<nat>): Result<seq<Row>>
    requires IsHistory(table.history) && IndexesResolve(table.schema, table.indexColumns)
    reads table, table.rowStore
  {
    match PlanSelect(table.schema, table.indexColumns, where)
    case FullScan => Chosen(table.schema, ScanView(table, reader), where)
    case HashIndexLookup =>
      IndexedIsKnown(table.schema, table.indexColumns, where.value.column);
      var groups := Grouped(table.View().rows, ColumnIndex(table.schema, where.value.column).value);
      Ok(IdView(table, reader, Ids(groups, where.value.value)))
    case OrderedIndexRange =>
      IndexedIsKnown(table.schema, table.indexColumns, where.value.column);
      var groups := Grouped(table.View().rows, ColumnIndex(table.schema, where.value.column).value);
      Ok(IdView(table, reader, Gather(groups, SortedValues(groups.Keys),
          k => Compare(k, where.value.op, where.value.value))))
  }

  lemma IndexedIsKnown(schema: seq<Column>, indexColumns: map<string, nat>, column: string)
    requires IndexesResolve(schema, indexColumns) && HasIndexOn(schema, indexColumns, column)
    ensures ColumnIndex(schema, column).Some?
  {
  }

  /** The reader sees the table's current rows on the path the planner picks. */
  ghost predicate SeesCurrent(table: Table, where: Option<Predicate>, reader: Option<nat>)
    reads table, table.rowStore
  {
    IsHistory(table.history) &&
    if PlanSelect(table.schema, table.indexColumns, where).FullScan?
    then ScanView(table, reader) == table.View().rows
    else reader.Some? ==> Agrees(VersionsAfter(table.history), table.View().rows, reader.value)
  }

  /**
   What `collectRows` owes a caller that sees the current rows: the scan's rows, or its exception; through the ordered
   index, exactly their stable sort by the compared column.
   */
  ghost predicate Collects(t: TableV, where: Option<Predicate>, r: Result<seq<Row>>) {
    var scanned := Chosen(t.schema, t.rows, where);
    match PlanSelect(t.schema, t.indexColumns, where)
    case FullScan => r == scanned
    case HashIndexLookup => r == scanned && r.Ok?
    case OrderedIndexRange =>
      && r.Ok? && scanned.Ok?
      && var column := ColumnIndex(t.schema, where.value.column);
      && column.Some? && IsStableSort(r.value, scanned.value, column.value)
  }

  /** A table without deletes shows its current rows to every reader that has seen its last tick. */
  lemma DeleteFreeSees(table: Table, where: Option<Predicate>, reader: Option<nat>)
    requires table.Valid() && DeleteFree(table.history) && (reader.Some? ==> reader.value >= |table.history|)
    ensures SeesCurrent(table, where, reader)
  {
    hide VersionsAfter, RowsAfter, VisibleRows, ReadAt, IsHistory;
    if reader.Some? {
      TimeTravel(table.history, reader.value);
      RowsAtEnd(table.history, reader.value);
      forall id: nat ensures ReadAt(VersionsAfter(table.history), id, reader.value) == RowOf(table.View().rows, id) {
        TimeTravelById(table.history, reader.value, id);
      }
    }
  }

  lemma {:induction false} PickedVisible(versions: Versions, rows: seq<Row>, ids: seq<nat>, reader: nat)
    requires Agrees(versions, rows, reader)
    ensures VisibleIn(versions, ids, reader) == Picked(rows, ids)
    decreases |ids|
  {
    hide ReadAt;
    if ids != [] {
      var before, id := ids[..|ids| - 1], ids[|ids| - 1];
      assert ids == before + [id];
      PickedVisible(versions, rows, before, reader);
      PickedExtend(rows, before, id);
    }
  }

  method RowsSnapshotForRead(table: Table, reader: Option<nat>) returns (rows: seq<Row>)
    requires table.Valid()
    ensures IsHistory(table.history) && rows == ScanView(table, reader)
  {
    if reader.Some? {
      rows := table.RowsSnapshotAt(reader.value);
    } else {
      rows := table.RowsSnapshot();
    }
  }

  method RowsByIdForRead(table: Table, ids: seq<nat>, reader: Option<nat>) returns (rows: seq<Row>)
    requires table.Valid()
    ensures IsHistory(table.history) && rows == IdView(table, reader, ids)
  {
    if reader.Some? {
      rows := table.RowsByIdAt(ids, reader.value);
    } else {
      rows := table.RowsById(ids);
    }
  }

  method ScanRows(schema: seq<Column>, snapshot: seq<Row>, where: Option<Predicate>) returns (r: Result<seq<Row>>)
    ensures r == Chosen(schema, snapshot, where)
  {
    hide MatchesWhere;
    var rows: seq<Row> := [];
    for i := 0 to |snapshot|
      invariant Chosen(schema, snapshot[..i], where) == Ok(rows)
    {
      assert snapshot[..i + 1][..i] == snapshot[..i];
      var matched := MatchesWhere(schema, snapshot[i], where);
      if matched.Err? {
        ChosenStops(schema, snapshot, where, i + 1);
        return Err;
      }
      if matched.value {
        rows := rows + [snapshot[i]];
      } else {
        assert rows + [] == rows;
      }
    }
    assert snapshot[..|snapshot|] == snapshot;
    return Ok(rows);
  }

  lemma {:induction false} ChosenStops(schema: seq<Column>, rows: seq<Row>, where: Option<Predicate>, i: nat)
    requires i <= |rows| && Chosen(schema, rows[..i], where).Err?
    ensures Chosen(schema, rows, where).Err?
    decreases |rows|
  {
    hide MatchesWhere;
    if i == |rows| {
      assert rows[..i] == rows;
    } else {
      assert rows[..|rows| - 1][..i] == rows[..i];
      ChosenStops(schema, rows[..|rows| - 1], where, i);
    }
  }

  lemma HashServes(t: TableV, p: Predicate)
    requires ValidTable(t) && p.Comparison? && ColumnIndex(t.schema, p.column).Some? && p.op == EqualTo
    ensures Chosen(t.schema, t.rows, Some(p)) ==
      Ok(Picked(t.rows, Ids(Grouped(t.rows, ColumnIndex(t.schema, p.column).value), p.value)))
  {
    ChosenIsHaving(t.schema, t.rows, p);
    HashPathIsScan(t.rows, ColumnIndex(t.schema, p.column).value, p.value);
  }

  lemma OrderedServes(t: TableV, p: Predicate)
    requires ValidTable(t) && p.Comparison? && ColumnIndex(t.schema, p.column).Some?
    ensures var column := ColumnIndex(t.schema, p.column).value;
      var groups := Grouped(t.rows, column);
      var scanned := Chosen(t.schema, t.rows, Some(p));
      && scanned.Ok?
      && IsStableSort(Picked(t.rows, Gather(groups, SortedValues(groups.Keys), k => Compare(k, p.op, p.value))),
          scanned.value, column)
  {
    hide IsStableSort, Gather, Grouped, Chosen, Having;
    ChosenIsHaving(t.schema, t.rows, p);
    OrderedPathIsStableSort(t.rows, ColumnIndex(t.schema, p.column).value, p.op, p.value);
  }

  /**
   Seeing the current rows, the caller gets what the scan would have given, in key order through the ordered index.
   */
  lemma CollectedMeans(table: Table, where: Option<Predicate>, reader: Option<nat>)
    requires table.Valid() && IsHistory(table.history) && ValidTable(table.View()) && SeesCurrent(table, where, reader)
    ensures Collects(table.View(), where, Collected(table, where, reader))
  {
    hide Table.Valid, Gather, Grouped, Picked, Chosen, IsStableSort, ValidRows, VersionsAfter, VisibleIn, VisibleRows,
        ReadAt;
    var t := table.View();
    var plan := PlanSelect(t.schema, t.indexColumns, where);
    if !plan.FullScan? {
      IndexedIsKnown(t.schema, t.indexColumns, where.value.column);
      var groups := Grouped(t.rows, ColumnIndex(t.schema, where.value.column).value);
      var ids := if plan.HashIndexLookup? then Ids(groups, where.value.value)
        else Gather(groups, SortedValues(groups.Keys), k => Compare(k, where.value.op, where.value.value));
      if reader.Some? { PickedVisible(VersionsAfter(table.history), t.rows, ids, reader.value); }
      if plan.HashIndexLookup? {
        HashServes(t, where.value);
      } else {
        OrderedServes(t, where.value);
      }
    }
  }

  /** Whatever path the planner picks, the caller gets its rows or its exception, as the reader sees them. */
  method CollectRows(table: Table, where: Option<Predicate>, reader: Option<nat>) returns (r: Result<seq<Row>>)
    requires table.Valid()
    ensures IsHistory(table.history) && IndexesResolve(table.schema, table.indexColumns) &&
        r == Collected(table, where, reader)
    ensures SeesCurrent(table, where, reader) ==> Collects(table.View(), where, r)
  {
    hide Table.Valid, Gather, Grouped, Chosen, IdView, ScanView, Collects, SeesCurrent, ValidRows;
    table.ViewValid();
    table.ValidHistory();
    var plan := PlanSelect(table.schema, table.indexColumns, where);
    match plan {
      case HashIndexLookup =>
        var ids := table.IndexedLookup(where.value.column, where.value.value);
        var rows := RowsByIdForRead(table, ids.value, reader);
        r := Ok(rows);
      case OrderedIndexRange =>
        var ids := table.OrderedLookup(where.value.column, where.value.op, where.value.value);
        var rows := RowsByIdForRead(table, ids.value, reader);
        r := Ok(rows);
      case FullScan =>
        var snapshot := RowsSnapshotForRead(table, reader);
        r := ScanRows(table.schema, snapshot, where);
    }
    if SeesCurrent(table, where, reader) {
      CollectedMeans(table, where, reader);
    }
  }

  /** Outside a transaction the row store is read, so the rows are current. */
  lemma OutsideSees(table: Table, where: Option<Predicate>)
    requires table.Valid() && IsHistory(table.history)
    ensures SeesCurrent(table, where, None)
  {
  }

  /** `executeSelect` once the rows are collected. */
  ghost predicate Selects(schema: seq<Column>, collected: Result<seq<Row>>, selected: seq<string>,
      orderBy: Option<OrderBy>, limit: Option<nat>, sort: Sorter, r: Result<Answer>)
  {
    var projection := TableProjection(schema, selected);
    var order := if orderBy.None? then None else ColumnIndex(schema, orderBy.value.column);
    if projection.Err? || collected.Err? || Ordered(collected.value, orderBy, order, sort).Err? then r == Err
    else
      && r.Ok? && Heads(r.value.names, SchemaNames(schema), projection.value)
      && r.value.rows == Output(Ordered(collected.value, orderBy, order, sort).value, projection.value, limit)
  }

  /** What a SELECT owes whoever sees the current rows of its table. */
  ghost predicate SelectAnswers(t: TableV, selected: seq<string>, where: Option<Predicate>, orderBy: Option<OrderBy>,
      limit: Option<nat>, sort: Sorter, r: Result<Answer>)
  {
    exists collected ::
      Collects(t, where, collected) && Selects(t.schema, collected, selected, orderBy, limit, sort, r)
  }

  lemma SelectsIsAnswer(t: TableV, where: Option<Predicate>, collected: Result<seq<Row>>, selected: seq<string>,
      orderBy: Option<OrderBy>, limit: Option<nat>, sort: Sorter, r: Result<Answer>)
    requires Collects(t, where, collected) && Selects(t.schema, collected, selected, orderBy, limit, sort, r)
    ensures SelectAnswers(t, selected, where, orderBy, limit, sort, r)
  {
  }

  /** The rest of a SELECT: ordered, projected and cut. */
  method Finished(schema: seq<Column>, rows: seq<Row>, names: seq<string>, projection: seq<nat>,
      orderBy: Option<OrderBy>, limit: Option<nat>, sort: Sorter, ghost selected: seq<string>)
    returns (r: Result<Answer>)
    requires TableProjection(schema, selected) == Ok(projection) && Heads(names, SchemaNames(schema), projection)
    ensures Selects(schema, Ok(rows), selected, orderBy, limit, sort, r)
  {
    hide TableProjection, Output, Heads, ColumnIndex;
    var order := if orderBy.None? then None else ColumnIndex(schema, orderBy.value.column);
    var ordered :- Ordered(rows, orderBy, order, sort);
    var output := ProjectRows(ordered, projection, limit);
    return Ok(Answer(names, output));
  }

  /** A SELECT without join: unknown columns throw before any row is read, an unknown ORDER BY column after. */
  method SelectFrom(table: Table, selected: seq<string>, where: Option<Predicate>, orderBy: Option<OrderBy>,
      limit: Option<nat>, sort: Sorter, reader: Option<nat>)
    returns (r: Result<Answer>)
    requires table.Valid()
    ensures IsHistory(table.history) && IndexesResolve(table.schema, table.indexColumns)
    ensures Selects(table.schema, Collected(table, where, reader), selected, orderBy, limit, sort, r)
    ensures SeesCurrent(table, where, reader) ==> SelectAnswers(table.View(), selected, where, orderBy, limit, sort, r)
  {
    hide Table.Valid, TableProjection, Collected, Output, SeesCurrent, Collects, Heads, ColumnIndex, SchemaNames,
        Ordered, SelectAnswers;
    table.ViewValid();
    table.ValidHistory();
    ghost var collected := Collected(table, where, reader);
    var projection, names := ResolveTableProjection(table.schema, selected);
    r := Err;
    if projection.Ok? {
      var rows := CollectRows(table, where, reader);
      if rows.Ok? {
        r := Finished(table.schema, rows.value, names, projection.value, orderBy, limit, sort, selected);
      }
    }
    if SeesCurrent(table, where, reader) {
      CollectedMeans(table, where, reader);
      SelectsIsAnswer(table.View(), where, collected, selected, orderBy, limit, sort, r);
    }
  }

  // ----- A statement on one table -----

  /** The table afterwards, whether the statement threw, and how many rows (or indexes) it changed. */
  datatype TableOutcome = TableOutcome(view: TableV, threw: bool, count: nat)

  predicate OnOneTable(q: Command) {
    q.Insert? || q.Update? || q.Delete? || q.CreateIndex?
  }

  function AfterChange(t: TableV, changed: Changed): TableOutcome {
    TableOutcome(t.(rows := changed.rows), changed.threw, if changed.threw then 0 else changed.count)
  }

  function TableStep(t: TableV, q: Command): TableOutcome
    requires OnOneTable(q)
  {
    match q
    case Insert(_, rows) => if ValidRows(t.schema, rows) then TableOutcome(t.(rows := t.rows + rows), false,
        |rows|) else TableOutcome(t, true, 0)
    case Update(_, column, value, where) => AfterChange(t, UpdateOf(t, column, value, where))
    case Delete(_, where) => AfterChange(t, DeleteFrom(t.schema, t.rows, where, |t.rows|))
    case CreateIndex(name, _, column) => var created := CreateIndexOn(t, name, column); TableOutcome(created.0, false,
        if created.1 then 1 else 0)
  }

  method ExecuteOn(table: Table, q: Command) returns (threw: bool, count: nat)
    requires table.Valid() && OnOneTable(q)
    modifies table.Repr
    ensures table.Valid() && old(table.Repr) <= table.Repr && fresh(table.Repr - old(table.Repr))
    ensures TableOutcome(table.View(), threw, count) == TableStep(old(table.View()), q)
  {
    hide Table.Valid, ValidRows, UpdateOf, DeleteFrom, CreateIndexOn;
    match q {
      case Insert(_, rows) =>
        var ok := ExecuteInsert(table, rows);
        threw, count := !ok, if ok then |rows| else 0;
      case Update(_, column, value, where) =>
        var r := ExecuteUpdate(table, column, value, where);
        threw, count := r.Err?, if r.Ok? then r.value else 0;
      case Delete(_, where) =>
        var r := ExecuteDelete(table, where);
        threw, count := r.Err?, if r.Ok? then r.value else 0;
      case CreateIndex(name, _, column) =>
        var created := ExecuteCreateIndex(table, name, column);
        threw, count := false, if created then 1 else 0;
    }
  }

  // ----- SELECT's join -----

  /** The join of two tables as the reader sees them; the select list is resolved before any row is joined. */
  method JoinTables(left: Table, right: Table, join: JoinClause, selected: seq<string>, where: Option<Predicate>,
      orderBy: Option<OrderBy>, limit: Option<nat>, sort: Sorter, reader: Option<nat>)
    returns (r: Result<Answer>)
    requires left.Valid() && right.Valid()
    ensures IsHistory(left.history) && IsHistory(right.history)
    ensures JoinAnswers(left.View().(rows := ScanView(left, reader)), right.View().(rows := ScanView(right, reader)),
        join, selected, where, orderBy, limit, sort, r)
    ensures SeesCurrent(left, None, reader) && SeesCurrent(right, None, reader) ==>
        JoinAnswers(left.View(), right.View(), join, selected, where, orderBy, limit, sort, r)
  {
    hide Table.Valid, JoinAnswers, VersionsAfter, VisibleRows;
    left.ValidHistory();
    right.ValidHistory();
    var leftRows := RowsSnapshotForRead(left, reader);
    var rightRows := RowsSnapshotForRead(right, reader);
    r := SelectJoin(TableV(left.name, left.schema, leftRows, left.indexColumns),
                    TableV(right.name, right.schema, rightRows, right.indexColumns), join, selected, where, orderBy,
                    limit, sort);
  }
}
