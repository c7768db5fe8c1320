/**
 src/storage/table.cpp: a table keeps one sequence of rows in several forms (pages, hash and ordered indexes, version
 chains) and every mutator brings all of them along.
 */
module Tables {
  import opened Results
  import opened Values
  import opened Ast
  import opened Relations
  import opened Indexes
  import opened BTreeIndexes
  import opened RowStores
  import opened Mvcc
  import opened AccessPaths

  const ROWS_PER_PAGE := 256
  const BUFFER_PAGES := 128
  const MAX_KEYS_PER_LEAF := 64

  // ----- Filing a row in a family of indexes -----

  ghost predicate Distinct<T>(family: map<string, T>) {
    forall a, b :: a in family && b in family && a != b ==> family[a] != family[b]
  }

  ghost predicate HashHolds(indexes: map<string, HashIndex>, columns: map<string, nat>, rows: seq<Row>)
    reads indexes.Values
  {
    forall n :: n in indexes ==> n in columns && indexes[n].entries == Grouped(rows, columns[n])
  }

  ghost predicate OrderedHolds(indexes: map<string, BTreeIndex>, columns: map<string, nat>, rows: seq<Row>)
    reads indexes.Values
  {
    forall n :: n in indexes ==> n in columns && indexes[n].Valid() && indexes[n].entries == Grouped(rows, columns[n])
  }

  predicate Covers(columns: map<string, nat>, row: Row) {
    forall n :: n in columns ==> columns[n] < |row|
  }

  lemma GroupedStep(rows: seq<Row>, row: Row, column: nat)
    requires column < |row|
    ensures Grouped(rows + [row], column) == Inserted(Grouped(rows, column), row[column], |rows|)
  {
    assert (rows + [row])[..|rows|] == rows;
  }

  lemma NextName(names: seq<string>, i: nat)
    requires i < |names| && forall i, j :: 0 <= i < j < |names| ==> names[i] != names[j]
    ensures names[i] !in names[..i] && forall n :: n in names[..i + 1] <==> n in names[..i] || n == names[i]
  {
    assert names[..i + 1] == names[..i] + [names[i]];
  }

  /** Files the row that comes after `rows` in every hash index. */
  method FileInHashIndexes(indexes: map<string, HashIndex>, columns: map<string, nat>, row: Row, ghost rows: seq<Row>,
      id: nat)
    requires Distinct(indexes) && HashHolds(indexes, columns, rows) && Covers(columns, row) && id == |rows|
    modifies indexes.Values
    ensures HashHolds(indexes, columns, rows + [row])
  {
    hide Grouped, Inserted, SortedNames;
    var names := SortedNames(indexes.Keys);
    SortedNamesDistinct(indexes.Keys);
    for i := 0 to |names|
      invariant forall n :: n in indexes ==>
        indexes[n].entries == Grouped(if n in names[..i] then rows + [row] else rows, columns[n])
    {
      var n := names[i];
      assert n in indexes;
      NextName(names, i);
      GroupedStep(rows, row, columns[n]);
      indexes[n].Insert(row[columns[n]], id);
    }
    assert names[..|names|] == names;
  }

  /** Files the row that comes after `rows` in every ordered index. */
  method FileInOrderedIndexes(indexes: map<string, BTreeIndex>, columns: map<string, nat>, row: Row,
      ghost rows: seq<Row>, id: nat)
    requires Distinct(indexes) && OrderedHolds(indexes, columns, rows) && Covers(columns, row) && id == |rows|
    modifies indexes.Values
    ensures OrderedHolds(indexes, columns, rows + [row])
  {
    hide Grouped, Inserted, SortedNames, BTreeIndex.Valid;
    var names := SortedNames(indexes.Keys);
    SortedNamesDistinct(indexes.Keys);
    for i := 0 to |names|
      invariant forall n :: n in indexes ==>
        indexes[n].Valid() && indexes[n].entries == Grouped(if n in names[..i] then rows + [row] else rows, columns[n])
    {
      var n := names[i];
      assert n in indexes;
      NextName(names, i);
      GroupedStep(rows, row, columns[n]);
      indexes[n].Insert(row[columns[n]], id);
    }
    assert names[..|names|] == names;
  }

  method ClearHashIndexes(indexes: map<string, HashIndex>, ghost columns: map<string, nat>)
    requires forall n :: n in indexes ==> n in columns
    modifies indexes.Values
    ensures HashHolds(indexes, columns, [])
  {
    hide SortedNames;
    var names := SortedNames(indexes.Keys);
    for i := 0 to |names|
      invariant forall n :: n in indexes && n in names[..i] ==> indexes[n].entries == map[]
    {
      assert names[i] in indexes && names[..i + 1] == names[..i] + [names[i]];
      indexes[names[i]].Clear();
    }
    assert names[..|names|] == names;
  }

  method ClearOrderedIndexes(indexes: map<string, BTreeIndex>, ghost columns: map<string, nat>)
    requires Distinct(indexes) && forall n :: n in indexes ==> n in columns && indexes[n].Valid()
    modifies indexes.Values
    ensures OrderedHolds(indexes, columns, [])
  {
    hide SortedNames, BTreeIndex.Valid, IsLayout;
    var names := SortedNames(indexes.Keys);
    for i := 0 to |names|
      invariant forall n :: n in indexes ==> indexes[n].Valid()
      invariant forall j :: 0 <= j < i ==> names[j] in indexes && indexes[names[j]].entries == map[]
    {
      assert names[i] in indexes;
      indexes[names[i]].Clear();
    }
    forall n | n in indexes ensures indexes[n].entries == map[] {
      assert n in names;
    }
  }

  // ----- The table -----

  class Table {
    const name: string
    const schema: seq<Column>
    const rowStore: PageRowStore
    const versions: MVCCRowStore
    var indexColumns: map<string, nat>
    var indexes: map<string, HashIndex>
    var orderedIndexes: map<string, BTreeIndex>
    var nextVersion: nat
    /** Every change to the rows since the table was created or last refilled. */
    ghost var history: seq<Change>
    /** The objects that make up the table. */
    ghost var Repr: set<object>

    ghost predicate Owns()
      reads this
    {
      && {this, rowStore, rowStore.bufferPool, versions} <= Repr
      && indexes.Values <= Repr && orderedIndexes.Values <= Repr
    }

    /** The table as a value. */
    ghost function View(): TableV
      reads this`indexColumns, rowStore`rows
    {
      TableV(name, schema, rowStore.rows, indexColumns)
    }

    /** One hash index and one ordered index per index name, none shared. */
    ghost predicate Linked()
      reads this`indexColumns, this`indexes, this`orderedIndexes
    {
      && indexes.Keys == indexColumns.Keys && orderedIndexes.Keys == indexColumns.Keys
      && Distinct(indexes) && Distinct(orderedIndexes)
    }

    /** Every index groups exactly the given rows. */
    ghost predicate Indexed(rows: seq<Row>)
      reads this`indexColumns, this`indexes, this`orderedIndexes, indexes.Values, orderedIndexes.Values
    {
      HashHolds(indexes, indexColumns, rows) && OrderedHolds(orderedIndexes, indexColumns, rows)
    }

    /** The version chains and the row store are what the history makes of them. */
    ghost predicate Versioned()
      reads this`history, this`nextVersion, rowStore`rows, versions
    {
      && IsHistory(history) && rowStore.rows == RowsAfter(history)
      && versions.versions == VersionsAfter(history) && nextVersion == |history| + 1
    }

    ghost predicate Valid()
      reads this, Repr
    {
      && Owns() && rowStore.Valid() && ValidTable(View()) && Linked()
      && Indexed(rowStore.rows) && Versioned()
    }

    lemma ValidOwns()
      requires Valid()
      ensures Owns()
    {
    }

    lemma ValidHistory()
      requires Valid()
      ensures IsHistory(history) && rowStore.rows == RowsAfter(history)
    {
    }

    lemma ViewName()
      ensures View().name == name && View().schema == schema
    {
    }

    lemma ViewValid()
      requires Valid()
      ensures ValidTable(View())
    {
    }

    constructor (name: string, schema: seq<Column>)
      requires name != "" && schema != []
      ensures Valid() && fresh(Repr) && View() == TableV(name, schema, [], map[]) && history == []
    {
      hide Placed, RowsAfter, IsHistory, VersionsAfter, Grouped, IsLayout;
      NothingHeld();
      this.name := name;
      this.schema := schema;
      this.rowStore := new PageRowStore(ROWS_PER_PAGE, BUFFER_PAGES);
      this.versions := new MVCCRowStore();
      this.indexColumns := map[];
      this.indexes := map[];
      this.orderedIndexes := map[];
      this.nextVersion := 1;
      this.history := [];
      new;
      Repr := {this, rowStore, rowStore.bufferPool, versions};
    }

    /** `addRowToIndexes`: files row `id`, the indexes holding the rows before it. */
    method AddRowToIndexes(id: nat)
      requires rowStore.Valid() && id < |rowStore.rows| && Covers(indexColumns, rowStore.rows[id])
      requires Linked() && Indexed(rowStore.rows[..id])
      modifies indexes.Values, orderedIndexes.Values
      ensures Indexed(rowStore.rows[..id + 1])
    {
      hide Placed, Grouped, IsLayout, HashHolds, OrderedHolds, PageRowStore.Valid, BTreeIndex.Valid;
      var row := rowStore.Get(id);
      assert rowStore.rows[..id + 1] == rowStore.rows[..id] + [rowStore.rows[id]];
      FileInHashIndexes(indexes, indexColumns, row.value, rowStore.rows[..id], id);
      FileInOrderedIndexes(orderedIndexes, indexColumns, row.value, rowStore.rows[..id], id);
    }

    /** Clears every index and files all rows again. */
    method RebuildIndexes(ghost before: seq<Row>)
      requires rowStore.Valid() && ValidTable(View()) && Linked() && Indexed(before)
      modifies indexes.Values, orderedIndexes.Values
      ensures Indexed(rowStore.rows)
    {
      hide Placed, Grouped, IsLayout, HashHolds, OrderedHolds, PageRowStore.Valid, BTreeIndex.Valid, ValidTable,
          Covers, Distinct;
      AllCovered(View());
      OrderedReady(before);
      ClearHashIndexes(indexes, indexColumns);
      ClearOrderedIndexes(orderedIndexes, indexColumns);
      var n := rowStore.Size();
      for id := 0 to n
        invariant rowStore.Valid() && Linked() && Indexed(rowStore.rows[..id])
      {
        AddRowToIndexes(id);
      }
      assert rowStore.rows[..n] == rowStore.rows;
    }

    /** `validateRow` does not throw. */
    method ValidateRow(row: Row) returns (valid: bool)
      ensures valid == ValidRow(schema, row)
    {
      if |row| != |schema| {
        return false;
      }
      for i := 0 to |row|
        invariant forall j :: 0 <= j < i ==> FitsColumn(schema[j], row[j])
      {
        if row[i].Null? {
          if !schema[i].nullable {
            return false;
          }
        } else if TypeOf(row[i]) != schema[i].ctype {
          return false;
        }
      }
      return true;
    }

    /** Rows and versions of an insert; the indexes are still to follow. */
    method StoreAppend(row: Row) returns (id: nat)
      requires rowStore.Valid() && Versioned()
      modifies rowStore, rowStore.bufferPool, versions, this`nextVersion, this`history
      ensures rowStore.Valid() && Versioned()
      ensures id == |old(rowStore.rows)| && rowStore.rows == old(rowStore.rows) + [row] &&
          history == old(history) + [Appended(row)]
    {
      hide PageRowStore.Valid, IsHistory, RowsAfter, VersionsAfter;
      Extend(history, Appended(row));
      id := rowStore.Append(row);
      versions.Write(id, row, nextVersion);
      nextVersion := nextVersion + 1;
      history := history + [Appended(row)];
    }

    /** Throws when the row does not fit the schema; otherwise every form of the rows grows by it. */
    method Insert(row: Row) returns (r: Result<nat>)
      requires Valid()
      modifies this`nextVersion, this`history, rowStore, rowStore.bufferPool, versions, indexes.Values,
          orderedIndexes.Values
      ensures Valid()
      ensures r == if ValidRow(schema, row) then Ok(|old(View()).rows|) else Err
      ensures View() == if r.Ok? then old(View()).(rows := old(View()).rows + [row]) else old(View())
      ensures history == if r.Ok? then old(history) + [Appended(row)] else old(history)
    {
      hide PageRowStore.Valid, Table.Versioned, HashHolds, OrderedHolds, Distinct, ValidTable, ValidRow, Covers,
          Table.Linked, Table.Indexed;
      var valid := ValidateRow(row);
      if !valid {
        return Err;
      }
      ValidRowsExtend(View(), row);
      var id := StoreAppend(row);
      assert rowStore.rows[..id] == old(rowStore.rows) && rowStore.rows[..id + 1] == rowStore.rows;
      AddRowToIndexes(id);
      return Ok(id);
    }

    method StoreErase(id: nat)
      requires rowStore.Valid() && Versioned() && id < |rowStore.rows|
      modifies rowStore, rowStore.bufferPool, versions, this`nextVersion, this`history
      ensures rowStore.Valid() && Versioned()
      ensures rowStore.rows == Erased(old(rowStore.rows), id) && history == old(history) + [Dropped(id)]
    {
      hide PageRowStore.Valid, IsHistory, RowsAfter, VersionsAfter;
      Extend(history, Dropped(id));
      versions.Erase(id, nextVersion);
      nextVersion := nextVersion + 1;
      history := history + [Dropped(id)];
      var _ := rowStore.Erase(id);
    }

    /** Erases by position; the rows after it move down and the indexes are rebuilt. */
    method Erase(id: nat) returns (erased: bool)
      requires Valid()
      modifies this`nextVersion, this`history, rowStore, rowStore.bufferPool, versions, indexes.Values,
          orderedIndexes.Values
      ensures Valid() && erased == (id < |old(View()).rows|)
      ensures View() == if erased then old(View()).(rows := Erased(old(View()).rows, id)) else old(View())
      ensures history == if erased then old(history) + [Dropped(id)] else old(history)
    {
      hide PageRowStore.Valid, Table.Versioned, Distinct, ValidTable, ValidRow, Covers, Table.Linked, Table.Indexed;
      var size := rowStore.Size();
      if id >= size {
        return false;
      }
      ValidRowsErase(View(), id);
      StoreErase(id);
      RebuildIndexes(old(rowStore.rows));
      return true;
    }

    lemma OrderedReady(rows: seq<Row>)
      requires Linked() && Indexed(rows)
      ensures forall n :: n in orderedIndexes ==> orderedIndexes[n].Valid()
    {
    }

    method StoreUpdate(id: nat, row: Row)
      requires rowStore.Valid() && Versioned() && id < |rowStore.rows|
      modifies rowStore, rowStore.bufferPool, versions, this`nextVersion, this`history
      ensures rowStore.Valid() && Versioned()
      ensures rowStore.rows == old(rowStore.rows)[id := row] && history == old(history) + [Rewritten(id, row)]
    {
      hide PageRowStore.Valid, IsHistory, RowsAfter, VersionsAfter;
      Extend(history, Rewritten(id, row));
      var _ := rowStore.Update(id, row);
      versions.Write(id, row, nextVersion);
      nextVersion := nextVersion + 1;
      history := history + [Rewritten(id, row)];
    }

    /** Assigns one column of one row; throws when the value does not fit the column. */
    method Update(id: nat, column: nat, value: Value) returns (r: Result<bool>)
      requires Valid()
      modifies this`nextVersion, this`history, rowStore, rowStore.bufferPool, versions, indexes.Values,
          orderedIndexes.Values
      ensures Valid()
      ensures r == if id >= |old(View()).rows| || column >= |schema| then Ok(false)
                   else if !FitsColumn(schema[column], value) then Err else Ok(true)
      ensures View() == if r == Ok(true) then old(View()).(rows := old(View()).rows[id := Assign(old(View()).rows[id],
          column, value)]) else old(View())
      ensures history == if r == Ok(true) then old(history) +
          [Rewritten(id, Assign(old(View()).rows[id], column, value))] else old(history)
    {
      hide PageRowStore.Valid, Table.Versioned, Distinct, ValidTable, ValidRow, Covers, Table.Linked, Table.Indexed;
      var size := rowStore.Size();
      if id >= size || column >= |schema| {
        return Ok(false);
      }
      if !FitsColumn(schema[column], value) {
        return Err;
      }
      ValidRowsAssign(View(), id, column, value);
      var found := rowStore.Get(id);
      var updated := found.value[column := value];
      StoreUpdate(id, updated);
      RebuildIndexes(old(rowStore.rows));
      return Ok(true);
    }

    /** The new history reads as if the rows had been inserted one by one into an empty table. */
    method StoreReplace(newRows: seq<Row>)
      requires rowStore.Valid()
      modifies rowStore, rowStore.bufferPool, versions, this`nextVersion, this`history
      ensures rowStore.Valid() && Versioned() && rowStore.rows == newRows && history == Appends(newRows)
    {
      hide PageRowStore.Valid, IsHistory, RowsAfter, VersionsAfter;
      rowStore.ReplaceRows(newRows);
      versions.Clear();
      nextVersion := 1;
      history := [];
      NothingHeld();
      for id := 0 to |newRows|
        invariant rowStore.Valid() && rowStore.rows == newRows
        invariant history == Appends(newRows[..id]) && IsHistory(history) && RowsAfter(history) == newRows[..id]
        invariant versions.versions == VersionsAfter(history) && nextVersion == |history| + 1
      {
        var row := rowStore.Get(id);
        Extend(history, Appended(row.value));
        versions.Write(id, row.value, nextVersion);
        nextVersion := nextVersion + 1;
        history := history + [Appended(row.value)];
        assert newRows[..id + 1] == newRows[..id] + [newRows[id]];
      }
      assert newRows[..|newRows|] == newRows;
    }

    /** Throws, changing nothing, when some row does not fit the schema. */
    method ReplaceRows(newRows: seq<Row>) returns (ok: bool)
      requires Valid()
      modifies this`nextVersion, this`history, rowStore, rowStore.bufferPool, versions, indexes.Values,
          orderedIndexes.Values
      ensures Valid() && ok == ValidRows(schema, newRows)
      ensures View() == if ok then old(View()).(rows := newRows) else old(View())
      ensures history == if ok then Appends(newRows) else old(history)
    {
      hide PageRowStore.Valid, Table.Versioned, Distinct, ValidRow, Covers, Table.Linked, Table.Indexed,
          IndexesResolve, Appends;
      ok := ValidateRows(newRows);
      if !ok {
        return;
      }
      StoreReplace(newRows);
      RebuildIndexes(old(rowStore.rows));
    }

    method ValidateRows(newRows: seq<Row>) returns (ok: bool)
      ensures ok == ValidRows(schema, newRows)
    {
      hide ValidRow;
      for i := 0 to |newRows|
        invariant forall j :: 0 <= j < i ==> ValidRow(schema, newRows[j])
      {
        var valid := ValidateRow(newRows[i]);
        if !valid {
          return false;
        }
      }
      return true;
    }

    /** Adds a hash and an ordered index on a column; refused when the column is unknown or the name is taken. */
    method CreateIndex(indexName: string, column: string) returns (created: bool)
      requires Valid()
      modifies this`indexColumns, this`indexes, this`orderedIndexes, this`Repr
      ensures Valid() && old(Repr) <= Repr && fresh(Repr - old(Repr))
      ensures (View(), created) == CreateIndexOn(old(View()), indexName, column)
      ensures history == old(history)
    {
      hide PageRowStore.Valid, Table.Versioned, ValidTable, Grouped, BTreeIndex.Valid, Table.Linked, Table.Indexed,
          CreateIndexOn;
      ghost var view := View();
      CreateIndexIs(view, indexName, column);
      SameNames();
      var index := ColumnIndex(schema, column);
      if index.None? || indexName in indexes {
        return false;
      }
      var hash, ordered := BuildIndexes(index.value);
      LinkIndex(indexName, index.value, hash, ordered);
      return true;
    }

    lemma SameNames()
      requires Linked()
      ensures indexes.Keys == indexColumns.Keys
    {
    }

    method LinkIndex(indexName: string, column: nat, hash: HashIndex, ordered: BTreeIndex)
      requires Owns() && Linked() && Indexed(rowStore.rows) && indexName !in indexColumns
      requires hash !in indexes.Values && hash.entries == Grouped(rowStore.rows, column)
      requires ordered !in orderedIndexes.Values && ordered.Valid() && ordered.entries == Grouped(rowStore.rows, column)
      modifies this`indexColumns, this`indexes, this`orderedIndexes, this`Repr
      ensures indexes == old(indexes)[indexName := hash] && orderedIndexes == old(orderedIndexes)[indexName := ordered]
      ensures indexColumns == old(indexColumns)[indexName := column] && Linked() && Indexed(rowStore.rows)
      ensures Owns() && Repr == old(Repr) + {hash, ordered}
    {
      hide Grouped, BTreeIndex.Valid, HashHolds, OrderedHolds, Distinct;
      HashLinked(indexes, indexColumns, rowStore.rows, indexName, hash, column);
      OrderedLinked(orderedIndexes, indexColumns, rowStore.rows, indexName, ordered, column);
      indexColumns := indexColumns[indexName := column];
      indexes := indexes[indexName := hash];
      orderedIndexes := orderedIndexes[indexName := ordered];
      Repr := Repr + {hash, ordered};
    }

    /** New indexes over the rows already stored. */
    method BuildIndexes(column: nat) returns (hash: HashIndex, ordered: BTreeIndex)
      requires rowStore.Valid() && ValidTable(View()) && column < |schema|
      ensures fresh(hash) && fresh(ordered) && ordered.Valid()
      ensures hash.entries == Grouped(rowStore.rows, column) && ordered.entries == Grouped(rowStore.rows, column)
    {
      hide PageRowStore.Valid, BTreeIndex.Valid, Grouped;
      hash := new HashIndex();
      ordered := new BTreeIndex(MAX_KEYS_PER_LEAF);
      GroupedNothing(column);
      var n := rowStore.Size();
      for id := 0 to n
        invariant fresh(hash) && fresh(ordered) && ordered.Valid()
        invariant hash.entries == Grouped(rowStore.rows[..id], column) &&
            ordered.entries == Grouped(rowStore.rows[..id], column)
      {
        var row := rowStore.Get(id);
        assert ValidRow(schema, row.value);
        GroupedOne(rowStore.rows, id, column);
        hash.Insert(row.value[column], id);
        ordered.Insert(row.value[column], id);
      }
      assert rowStore.rows[..n] == rowStore.rows;
    }

    /** `indexedLookup`: the ids of the rows whose column equals the value. */
    method IndexedLookup(column: string, value: Value) returns (ids: Option<seq<nat>>)
      requires Valid()
      ensures ids.Some? <==> HasIndexOn(schema, View().indexColumns, column)
      ensures ids.Some? ==> ColumnIndex(schema, column).Some?
      ensures ids.Some? ==> ids.value == Ids(Grouped(View().rows, ColumnIndex(schema, column).value), value)
    {
      hide PageRowStore.Valid, Table.Versioned, Distinct, BTreeIndex.Valid, Grouped, ValidRows;
      var found := IndexOn(schema, indexColumns, column);
      if found.None? {
        return None;
      }
      var hits := indexes[found.value].Find(value);
      return Some(hits);
    }

    /** `orderedLookup`: the ids of the rows whose column compares with the value as asked, key by key. */
    method OrderedLookup(column: string, op: CompareOp, value: Value) returns (ids: Option<seq<nat>>)
      requires Valid()
      ensures ids.Some? <==> HasIndexOn(schema, View().indexColumns, column)
      ensures ids.Some? ==> ColumnIndex(schema, column).Some?
      ensures ids.Some? ==>
        var groups := Grouped(View().rows, ColumnIndex(schema, column).value);
        ids.value == Gather(groups, SortedValues(groups.Keys), k => Compare(k, op, value))
    {
      hide PageRowStore.Valid, Table.Versioned, Distinct, Grouped, ValidRows, BTreeIndex.Valid, Gather, SortedValues;
      var found := IndexOn(schema, indexColumns, column);
      if found.None? {
        return None;
      }
      var index := orderedIndexes[found.value];
      assert index.Valid();
      var hits;
      match op {
        case EqualTo => hits := index.Find(value);
        case GreaterThan => hits := index.GreaterThan(value);
        case LessThan => hits := index.LessThan(value);
      }
      GatherOp(index.entries, op, value);
      return Some(hits);
    }

    method RowsSnapshot() returns (rows: seq<Row>)
      requires Valid()
      ensures rows == View().rows
    {
      hide PageRowStore.Valid;
      rows := rowStore.RowsSnapshot();
    }

    method RowsById(ids: seq<nat>) returns (rows: seq<Row>)
      requires Valid()
      ensures rows == Picked(View().rows, ids)
    {
      hide PageRowStore.Valid;
      rows := rowStore.RowsById(ids);
    }

    /** Reading as of a version tick: without deletes, the rows held right after that tick. */
    method RowsSnapshotAt(reader: nat) returns (rows: seq<Row>)
      requires Valid()
      ensures rows == VisibleRows(VersionsAfter(history), reader)
      ensures DeleteFree(history) ==> rows == RowsAt(history, reader)
    {
      hide PageRowStore.Valid, VisibleRows, VersionsAfter, IsHistory, RowsAfter;
      rows := versions.ReadVisibleRows(reader);
      if DeleteFree(history) {
        TimeTravel(history, reader);
      }
    }

    method RowsByIdAt(ids: seq<nat>, reader: nat) returns (rows: seq<Row>)
      requires Valid()
      ensures rows == VisibleIn(VersionsAfter(history), ids, reader)
      ensures DeleteFree(history) ==> rows == Picked(RowsAt(history, reader), ids)
    {
      hide PageRowStore.Valid, VisibleIn, VersionsAfter, IsHistory, RowsAfter;
      rows := versions.ReadVisibleRowsById(ids, reader);
      if DeleteFree(history) {
        TimeTravelPicked(history, reader, ids);
      }
    }
  }

  lemma ValidRowsExtend(t: TableV, row: Row)
    requires ValidTable(t) && ValidRow(t.schema, row)
    ensures ValidTable(t.(rows := t.rows + [row])) && Covers(t.indexColumns, row)
  {
  }

  lemma ValidRowsErase(t: TableV, id: nat)
    requires ValidTable(t) && id < |t.rows|
    ensures ValidTable(t.(rows := Erased(t.rows, id)))
  {
  }

  lemma ValidRowsAssign(t: TableV, id: nat, column: nat, value: Value)
    requires ValidTable(t) && id < |t.rows| && column < |t.schema| && FitsColumn(t.schema[column], value)
    ensures |t.rows[id]| == |t.schema|
    ensures ValidTable(t.(rows := t.rows[id := Assign(t.rows[id], column, value)]))
  {
    assert ValidRow(t.schema, t.rows[id]);
    assert ValidRow(t.schema, Assign(t.rows[id], column, value));
  }

  lemma AllCovered(t: TableV)
    requires ValidTable(t)
    ensures forall i :: 0 <= i < |t.rows| ==> Covers(t.indexColumns, t.rows[i])
  {
  }

  function Appends(rows: seq<Row>): (r: seq<Change>)
    ensures |r| == |rows| && forall i :: 0 <= i < |r| ==> r[i] == Appended(rows[i])
  {
    seq(|rows|, i requires 0 <= i < |rows| => Appended(rows[i]))
  }

  predicate Named(schema: seq<Column>, position: nat, column: string) {
    position < |schema| && schema[position].name == column
  }

  /** Some index covers a column of that name. */
  predicate HasIndexOn(schema: seq<Column>, indexColumns: map<string, nat>, column: string) {
    exists n :: n in indexColumns && Named(schema, indexColumns[n], column)
  }

  /** The name of the first index on the column, in name order. */
  method IndexOn(schema: seq<Column>, indexColumns: map<string, nat>, column: string) returns (found: Option<string>)
    ensures found.Some? <==> HasIndexOn(schema, indexColumns, column)
    ensures found.Some? ==> found.value in indexColumns && Named(schema, indexColumns[found.value], column)
  {
    hide SortedNames;
    var names := SortedNames(indexColumns.Keys);
    for i := 0 to |names|
      invariant forall j :: 0 <= j < i ==> names[j] in indexColumns && !Named(schema, indexColumns[names[j]], column)
    {
      assert names[i] in indexColumns;
      if Named(schema, indexColumns[names[i]], column) {
        return Some(names[i]);
      }
    }
    forall n | n in indexColumns ensures !Named(schema, indexColumns[n], column) {
      assert n in names;
    }
    return None;
  }

  lemma CreateIndexIs(t: TableV, name: string, column: string)
    requires ValidTable(t)
    ensures var index := ColumnIndex(t.schema, column);
      var created := index.Some? && name !in t.indexColumns;
      && CreateIndexOn(t, name, column) ==
          (if created then t.(indexColumns := t.indexColumns[name := index.value]) else t, created)
      && ValidTable(CreateIndexOn(t, name, column).0)
  {
  }

  lemma HashLinked(indexes: map<string, HashIndex>, columns: map<string, nat>, rows: seq<Row>, name: string,
      index: HashIndex, column: nat)
    requires Distinct(indexes) && HashHolds(indexes, columns, rows) && name !in indexes
    requires index !in indexes.Values && index.entries == Grouped(rows, column)
    ensures Distinct(indexes[name := index]) && HashHolds(indexes[name := index], columns[name := column], rows)
  {
    hide Grouped;
    assert forall n :: n in indexes ==> indexes[n] in indexes.Values;
  }

  lemma OrderedLinked(indexes: map<string, BTreeIndex>, columns: map<string, nat>, rows: seq<Row>, name: string,
      index: BTreeIndex, column: nat)
    requires Distinct(indexes) && OrderedHolds(indexes, columns, rows) && name !in indexes
    requires index !in indexes.Values && index.Valid() && index.entries == Grouped(rows, column)
    ensures Distinct(indexes[name := index]) && OrderedHolds(indexes[name := index], columns[name := column], rows)
  {
    hide Grouped, BTreeIndex.Valid;
    assert forall n :: n in indexes ==> indexes[n] in indexes.Values;
  }

  lemma GroupedNothing(column: nat)
    ensures forall rows :: rows == [] ==> Grouped(rows, column) == map[]
  {
  }

  lemma {:induction false} GatherSame(entries: Entries, keys: seq<Value>, f: Value -> bool, g: Value -> bool)
    requires forall k :: k in keys ==> k in entries && f(k) == g(k)
    ensures Gather(entries, keys, f) == Gather(entries, keys, g)
  {
    if keys != [] {
      assert keys[0] in keys;
      GatherSame(entries, keys[1..], f, g);
    }
  }

  lemma {:induction false} GatherEqual(entries: Entries, keys: seq<Value>, value: Value)
    requires (forall k :: k in keys ==> k in entries) && forall i, j :: 0 <= i < j < |keys| ==> keys[i] != keys[j]
    ensures Gather(entries, keys, k => Compare(k, EqualTo, value)) == if value in keys then Ids(entries, value) else []
  {
    if keys != [] {
      assert keys[0] in keys;
      GatherEqual(entries, keys[1..], value);
      assert value in keys <==> value == keys[0] || value in keys[1..];
    }
  }

  /** The three lookups of an ordered index are one filter over its keys. */
  lemma GatherOp(entries: Entries, op: CompareOp, value: Value)
    ensures var keys := SortedValues(entries.Keys);
      Gather(entries, keys, k => Compare(k, op, value)) ==
        match op
        case EqualTo => Ids(entries, value)
        case GreaterThan => Gather(entries, keys, k => ValueLess(value, k))
        case LessThan => Gather(entries, keys, k => ValueLess(k, value))
  {
    hide SortedValues, ValueLess;
    var keys := SortedValues(entries.Keys);
    match op {
      case EqualTo =>
        ValueOrder();
        forall i, j | 0 <= i < j < |keys| ensures keys[i] != keys[j] { assert ValueLess(keys[i], keys[j]); }
        GatherEqual(entries, keys, value);
      case GreaterThan => GatherSame(entries, keys, k => Compare(k, op, value), k => ValueLess(value, k));
      case LessThan => GatherSame(entries, keys, k => Compare(k, op, value), k => ValueLess(k, value));
    }
  }
}
