/** The snapshot file of src/persistence/storage_manager.cpp as a byte codec. */
module Snapshot {
  import opened Results
  import opened Values
  import opened Bytes
  import opened Relations

  const MAGIC: string := "TCRDB001"
  const VERSION: nat := 1
  const NULL_TYPE: nat := 255

  // ----- Writing -----

  function EncodeValue(v: Value): string {
    match v
    case Null => LittleEndian(NULL_TYPE, 1)
    case Int(i) => LittleEndian(TypeCode(IntType), 1) + LittleEndian(ToUnsigned(i), 8)
    case Dbl(bits) => LittleEndian(TypeCode(DoubleType), 1) + LittleEndian(bits, 8)
    case Str(s) => LittleEndian(TypeCode(StringType), 1) + EncodeString(s)
  }

  function EncodeRow(row: Row): string {
    if row == [] then "" else EncodeValue(row[0]) + EncodeRow(row[1..])
  }

  function EncodeRows(rows: seq<Row>): string {
    if rows == [] then "" else EncodeRow(rows[0]) + EncodeRows(rows[1..])
  }

  function EncodeColumn(c: Column): string {
    EncodeString(c.name) + LittleEndian(TypeCode(c.ctype), 1) + LittleEndian(if c.nullable then 1 else 0, 1)
  }

  function EncodeColumns(schema: seq<Column>): string {
    if schema == [] then "" else EncodeColumn(schema[0]) + EncodeColumns(schema[1..])
  }

  /** An index definition: its name and the name of its column. */
  type Definition = (string, string)

  function EncodeDefinitions(defs: seq<Definition>): string {
    if defs == [] then "" else EncodeString(defs[0].0) + EncodeString(defs[0].1) + EncodeDefinitions(defs[1..])
  }

  /** `Table::indexDefinitions`, in the map's key order. */
  function Definitions(t: TableV): (r: seq<Definition>)
    ensures |r| == |t.indexColumns|
  {
    var names := SortedNames(t.indexColumns.Keys);
    seq(|names|, i requires 0 <= i < |names| => (names[i], ColumnName(t.schema, t.indexColumns, names[i])))
  }

  /** The name of the column an index covers; index columns are positions in the schema. */
  function ColumnName(schema: seq<Column>, indexColumns: map<string, nat>, index: string): string {
    if index in indexColumns && indexColumns[index] < |schema| then schema[indexColumns[index]].name else ""
  }

  function EncodeTable(t: TableV): string
    requires ValidTable(t)
  {
    EncodeString(t.name)
    + (LittleEndian(|t.schema|, 8) + EncodeColumns(t.schema))
    + (LittleEndian(|t.indexColumns|, 8) + EncodeDefinitions(Definitions(t)))
    + (LittleEndian(|t.rows|, 8) + EncodeRows(t.rows))
  }

  function EncodeTables(tables: map<string, TableV>, names: seq<string>): string
    requires forall n :: n in names ==> n in tables && ValidTable(tables[n])
  {
    if names == [] then ""
    else
      assert names[0] in names;
      EncodeTable(tables[names[0]]) + EncodeTables(tables, names[1..])
  }

  function EncodeDb(db: Db): string
    requires ValidDb(db)
  {
    MAGIC + LittleEndian(VERSION, 4) + EncodeString(db.name) + LittleEndian(|db.tables|, 8)
    + EncodeTables(db.tables, SortedNames(db.tables.Keys))
  }

  // ----- Reading -----

  function ReadValue(input: string): (r: Read<Value>)
    ensures r.Ok? ==> |r.value.1| < |input|
  {
    var code :- ReadUnsigned(input, 1);
    if code.0 == NULL_TYPE then Ok((Null, code.1))
    else if code.0 == TypeCode(IntType) then
      var n :- ReadUnsigned(code.1, 8);
      Ok((Int(ToSigned(n.0)), n.1))
    else if code.0 == TypeCode(DoubleType) then
      var n :- ReadUnsigned(code.1, 8);
      Ok((Dbl(n.0 % TWO_64), n.1))
    else if code.0 == TypeCode(StringType) then
      var s :- ReadString(code.1);
      Ok((Str(s.0), s.1))
    else Err
  }

  function ReadRow(input: string, width: nat): Read<Row> {
    if width == 0 then Ok(([], input))
    else
      var v :- ReadValue(input);
      var rest :- ReadRow(v.1, width - 1);
      Ok(([v.0] + rest.0, rest.1))
  }

  function ReadRows(input: string, count: nat, width: nat): Read<seq<Row>>
    decreases count
  {
    if count == 0 then Ok(([], input))
    else
      var row :- ReadRow(input, width);
      var rest :- ReadRows(row.1, count - 1, width);
      Ok(([row.0] + rest.0, rest.1))
  }

  /** `static_cast<ColumnType>` of a byte; no value is refused. */
  function TypeOfCode(code: nat): (t: ColumnType)
    requires code < 256
    ensures TypeCode(t) == code
  {
    if code == TypeCode(IntType) then IntType
    else if code == TypeCode(DoubleType) then DoubleType
    else if code == TypeCode(StringType) then StringType
    else OtherType(code)
  }

  function ReadColumn(input: string): Read<Column> {
    var name :- ReadString(input);
    var code :- ReadUnsigned(name.1, 1);
    var nullable :- ReadUnsigned(code.1, 1);
    Power256Values();
    Ok((Column(name.0, TypeOfCode(code.0), nullable.0 != 0), nullable.1))
  }

  function ReadColumns(input: string, count: nat): Read<seq<Column>> {
    if count == 0 then Ok(([], input))
    else
      var c :- ReadColumn(input);
      var rest :- ReadColumns(c.1, count - 1);
      Ok(([c.0] + rest.0, rest.1))
  }

  function ReadDefinitions(input: string, count: nat): Read<seq<Definition>> {
    if count == 0 then Ok(([], input))
    else
      var name :- ReadString(input);
      var column :- ReadString(name.1);
      var rest :- ReadDefinitions(column.1, count - 1);
      Ok(([(name.0, column.0)] + rest.0, rest.1))
  }

  /** `createIndex` for each definition in turn; failures are ignored. */
  function CreateIndexes(t: TableV, defs: seq<Definition>): (r: TableV)
    ensures ValidTable(t) ==> ValidTable(r)
    decreases |defs|
  {
    if defs == [] then t else CreateIndexes(CreateIndexOn(t, defs[0].0, defs[0].1).0, defs[1..])
  }

  /** One table block: its content is checked as `createTable`, `replaceRows` and `createIndex` check it. */
  function ReadTable(input: string): (r: Read<TableV>)
    ensures r.Ok? ==> ValidTable(r.value.0)
  {
    var name :- ReadString(input);
    var columnCount :- ReadUnsigned(name.1, 8);
    var columns :- ReadColumns(columnCount.1, columnCount.0);
    var t :- NewTable(name.0, columns.0);
    var indexCount :- ReadUnsigned(columns.1, 8);
    var defs :- ReadDefinitions(indexCount.1, indexCount.0);
    var rowCount :- ReadUnsigned(defs.1, 8);
    var rows :- ReadRows(rowCount.1, rowCount.0, columnCount.0);
    if !ValidRows(columns.0, rows.0) then Err
    else Ok((CreateIndexes(t.(rows := rows.0), defs.0), rows.1))
  }

  function ReadTables(input: string, count: nat, db: Db): (r: Read<Db>)
    ensures r.Ok? && ValidDb(db) ==> ValidDb(r.value.0)
    decreases count
  {
    if count == 0 then Ok((db, input))
    else
      var t :- ReadTable(input);
      if t.0.name in db.tables then Err
      else ReadTables(t.1, count - 1, db.(tables := db.tables[t.0.name := t.0]))
  }

  function DecodeDb(file: string): (r: Result<Db>)
    ensures r.Ok? ==> ValidDb(r.value)
  {
    var magic :- ReadBytes(file, |MAGIC|);
    if magic.0 != MAGIC then Err
    else
      var version :- ReadUnsigned(magic.1, 4);
      if version.0 != VERSION then Err
      else
        var name :- ReadString(version.1);
        if name.0 == "" then Err
        else
          var count :- ReadUnsigned(name.1, 8);
          var db :- ReadTables(count.1, count.0, Db(name.0, map[]));
          Ok(db.0)
  }

  // ----- Reading undoes writing, and each reader stops exactly where its writer did -----

  predicate Short(s: string) {
    |s| < TWO_64
  }

  predicate ShortValue(v: Value) {
    v.Str? ==> Short(v.s)
  }

  predicate ShortRow(row: Row) {
    forall i :: 0 <= i < |row| ==> ShortValue(row[i])
  }

  predicate ShortRows(rows: seq<Row>) {
    forall i :: 0 <= i < |rows| ==> ShortRow(rows[i])
  }

  predicate ShortColumns(schema: seq<Column>) {
    forall i :: 0 <= i < |schema| ==> Short(schema[i].name)
  }

  predicate ShortDefinitions(defs: seq<Definition>) {
    forall i :: 0 <= i < |defs| ==> Short(defs[i].0) && Short(defs[i].1)
  }

  /** All sizes fit the 64-bit counts of the format, as every object in memory does. */
  predicate AddressableTable(t: TableV) {
    && Short(t.name) && |t.schema| < TWO_64 && ShortColumns(t.schema)
    && |t.indexColumns| < TWO_64 && (forall n :: n in t.indexColumns ==> Short(n))
    && |t.rows| < TWO_64 && ShortRows(t.rows)
  }

  predicate Addressable(db: Db) {
    Short(db.name) && |db.tables| < TWO_64 && forall n :: n in db.tables ==> AddressableTable(db.tables[n])
  }

  lemma ReadValueBack(v: Value, rest: string)
    requires ShortValue(v)
    ensures ReadValue(EncodeValue(v) + rest) == Ok((v, rest))
  {
    Power256Values();
    hide LittleEndian, FromLittleEndian, EncodeString, ReadString, ReadUnsigned;
    match v
    case Null =>
      ReadUnsignedBack(NULL_TYPE, 1, rest);
    case Int(i) =>
      assert EncodeValue(v) + rest == LittleEndian(0, 1) + (LittleEndian(ToUnsigned(i), 8) + rest);
      ReadUnsignedBack(0, 1, LittleEndian(ToUnsigned(i), 8) + rest);
      ReadUnsignedBack(ToUnsigned(i), 8, rest);
    case Dbl(bits) =>
      assert EncodeValue(v) + rest == LittleEndian(1, 1) + (LittleEndian(bits, 8) + rest);
      ReadUnsignedBack(1, 1, LittleEndian(bits, 8) + rest);
      ReadUnsignedBack(bits, 8, rest);
    case Str(s) =>
      assert EncodeValue(v) + rest == LittleEndian(2, 1) + (EncodeString(s) + rest);
      ReadUnsignedBack(2, 1, EncodeString(s) + rest);
      ReadStringBack(s, rest);
  }

  lemma {:induction false} ReadRowBack(row: Row, rest: string)
    requires ShortRow(row)
    ensures ReadRow(EncodeRow(row) + rest, |row|) == Ok((row, rest))
  {
    hide ReadValue, EncodeValue;
    if row == [] {
      assert EncodeRow(row) + rest == rest;
    } else {
      assert EncodeRow(row) + rest == EncodeValue(row[0]) + (EncodeRow(row[1..]) + rest);
      ReadValueBack(row[0], EncodeRow(row[1..]) + rest);
      ReadRowBack(row[1..], rest);
      assert [row[0]] + row[1..] == row;
    }
  }

  lemma {:induction false} ReadRowsBack(rows: seq<Row>, width: nat, rest: string)
    requires ShortRows(rows) && forall i :: 0 <= i < |rows| ==> |rows[i]| == width
    ensures ReadRows(EncodeRows(rows) + rest, |rows|, width) == Ok((rows, rest))
    decreases |rows|
  {
    hide ReadRow, EncodeRow, ShortRow;
    if rows == [] {
      assert EncodeRows(rows) + rest == rest;
    } else {
      assert EncodeRows(rows) + rest == EncodeRow(rows[0]) + (EncodeRows(rows[1..]) + rest);
      ReadRowBack(rows[0], EncodeRows(rows[1..]) + rest);
      ReadRowsBack(rows[1..], width, rest);
      assert [rows[0]] + rows[1..] == rows;
    }
  }

  lemma ReadColumnBack(c: Column, rest: string)
    requires Short(c.name)
    ensures ReadColumn(EncodeColumn(c) + rest) == Ok((c, rest))
  {
    Power256Values();
    var flag := if c.nullable then 1 else 0;
    var afterCode := LittleEndian(flag, 1) + rest;
    var afterName := LittleEndian(TypeCode(c.ctype), 1) + afterCode;
    assert EncodeColumn(c) + rest == EncodeString(c.name) + afterName;
    hide LittleEndian, FromLittleEndian, EncodeString, ReadString;
    ReadStringBack(c.name, afterName);
    ReadUnsignedBack(TypeCode(c.ctype), 1, afterCode);
    ReadUnsignedBack(flag, 1, rest);
  }

  lemma {:induction false} ReadColumnsBack(schema: seq<Column>, rest: string)
    requires ShortColumns(schema)
    ensures ReadColumns(EncodeColumns(schema) + rest, |schema|) == Ok((schema, rest))
  {
    hide ReadColumn, EncodeColumn;
    if schema == [] {
      assert EncodeColumns(schema) + rest == rest;
    } else {
      assert EncodeColumns(schema) + rest == EncodeColumn(schema[0]) + (EncodeColumns(schema[1..]) + rest);
      ReadColumnBack(schema[0], EncodeColumns(schema[1..]) + rest);
      ReadColumnsBack(schema[1..], rest);
      assert [schema[0]] + schema[1..] == schema;
    }
  }

  lemma {:induction false} ReadDefinitionsBack(defs: seq<Definition>, rest: string)
    requires ShortDefinitions(defs)
    ensures ReadDefinitions(EncodeDefinitions(defs) + rest, |defs|) == Ok((defs, rest))
    decreases |defs|
  {
    hide EncodeString, ReadString;
    if defs == [] {
      assert EncodeDefinitions(defs) + rest == rest;
    } else {
      var tail := EncodeDefinitions(defs[1..]) + rest;
      assert EncodeDefinitions(defs) + rest == EncodeString(defs[0].0) + (EncodeString(defs[0].1) + tail);
      ReadStringBack(defs[0].0, EncodeString(defs[0].1) + tail);
      ReadStringBack(defs[0].1, tail);
      ReadDefinitionsBack(defs[1..], rest);
      assert [defs[0]] + defs[1..] == defs;
    }
  }

  /** Recreating the indexes from their definitions, in any order without repeats, gives back the same index map. */
  lemma {:induction false} CreateIndexesBack(t: TableV, indexColumns: map<string, nat>, defs: seq<Definition>)
    requires IndexesResolve(t.schema, indexColumns)
    requires forall i, j :: 0 <= i < j < |defs| ==> defs[i].0 != defs[j].0
    requires forall i :: 0 <= i < |defs| ==>
      defs[i].0 in indexColumns && defs[i].0 !in t.indexColumns && defs[i].1 == t.schema[indexColumns[defs[i].0]].name
    requires forall n :: n in t.indexColumns ==> n in indexColumns && t.indexColumns[n] == indexColumns[n]
    requires forall n :: n in indexColumns ==> n in t.indexColumns || exists i :: 0 <= i < |defs| && defs[i].0 == n
    ensures CreateIndexes(t, defs) == t.(indexColumns := indexColumns)
    decreases |defs|
  {
    hide ColumnIndex, ValidTable;
    if defs == [] {
      assert t.indexColumns == indexColumns;
    } else {
      var next := CreateIndexOn(t, defs[0].0, defs[0].1).0;
      assert next == t.(indexColumns := t.indexColumns[defs[0].0 := indexColumns[defs[0].0]]);
      forall n | n in indexColumns
        ensures n in next.indexColumns || exists i :: 0 <= i < |defs[1..]| && defs[1..][i].0 == n
      {
        if n !in t.indexColumns {
          var i :| 0 <= i < |defs| && defs[i].0 == n;
          assert i == 0 || defs[1..][i - 1].0 == n;
        }
      }
      CreateIndexesBack(next, indexColumns, defs[1..]);
    }
  }

  lemma DefinitionsProperties(t: TableV)
    requires ValidTable(t) && AddressableTable(t)
    ensures var defs := Definitions(t);
      && ShortDefinitions(defs)
      && CreateIndexes(t.(indexColumns := map[]), defs) == t
  {
    hide ValidRows, ShortRows, Definitions, ColumnIndex, CreateIndexes;
    DefinitionsAre(t);
    CreateIndexesBack(t.(indexColumns := map[]), t.indexColumns, Definitions(t));
  }

  /** Index definitions are the indexes' names, each once, with the names of their columns. */
  lemma DefinitionsAre(t: TableV)
    ensures var defs := Definitions(t);
      && (forall i :: 0 <= i < |defs| ==>
            defs[i].0 in t.indexColumns && defs[i].1 == ColumnName(t.schema, t.indexColumns, defs[i].0))
      && (forall i, j :: 0 <= i < j < |defs| ==> defs[i].0 != defs[j].0)
      && (forall n :: n in t.indexColumns ==> exists i :: 0 <= i < |defs| && defs[i].0 == n)
  {
    hide SortedNames, ColumnName;
    var defs := Definitions(t);
    var names := SortedNames(t.indexColumns.Keys);
    forall i | 0 <= i < |defs| ensures defs[i].0 in t.indexColumns {
      assert names[i] in names;
    }
    SortedNamesDistinct(t.indexColumns.Keys);
    forall n | n in t.indexColumns ensures exists i :: 0 <= i < |defs| && defs[i].0 == n {
      assert n in names;
      var i :| 0 <= i < |names| && names[i] == n;
      assert defs[i].0 == n;
    }
  }

  lemma ReadTableBack(t: TableV, rest: string)
    requires ValidTable(t) && AddressableTable(t)
    ensures ReadTable(EncodeTable(t) + rest) == Ok((t, rest))
  {
    hide LittleEndian, FromLittleEndian, EncodeString, ReadString, ReadUnsigned, EncodeColumns, ReadColumns,
      EncodeDefinitions, ReadDefinitions, EncodeRows, ReadRows, Definitions, ShortRows, ShortColumns, ShortDefinitions,
          ValidRows,
      CreateIndexes;
    Power256Values();
    var defs := Definitions(t);
    var rows := EncodeRows(t.rows) + rest;
    var rowCount := LittleEndian(|t.rows|, 8) + rows;
    var definitions := EncodeDefinitions(defs) + rowCount;
    var indexCount := LittleEndian(|t.indexColumns|, 8) + definitions;
    var columns := EncodeColumns(t.schema) + indexCount;
    var columnCount := LittleEndian(|t.schema|, 8) + columns;
    assert EncodeTable(t) + rest == EncodeString(t.name) + columnCount;
    DefinitionsProperties(t);
    RowsAreWide(t);
    ReadStringBack(t.name, columnCount);
    ReadUnsignedBack(|t.schema|, 8, columns);
    ReadColumnsBack(t.schema, indexCount);
    ReadUnsignedBack(|t.indexColumns|, 8, definitions);
    ReadDefinitionsBack(defs, rowCount);
    ReadUnsignedBack(|t.rows|, 8, rows);
    ReadRowsBack(t.rows, |t.schema|, rest);
    assert TableV(t.name, t.schema, [], map[]).(rows := t.rows) == t.(indexColumns := map[]);
  }

  lemma RowsAreWide(t: TableV)
    requires ValidTable(t)
    ensures forall i :: 0 <= i < |t.rows| ==> |t.rows[i]| == |t.schema|
  {
  }

  /** `tables` filed one by one under `names` on top of `loaded`. */
  function Filed(loaded: map<string, TableV>, tables: map<string, TableV>, names: seq<string>): map<string, TableV>
    requires forall n :: n in names ==> n in tables
    decreases |names|
  {
    if names == [] then loaded
    else
      assert names[0] in names;
      Filed(loaded[names[0] := tables[names[0]]], tables, names[1..])
  }

  lemma {:induction false} FiledAll(loaded: map<string, TableV>, tables: map<string, TableV>, names: seq<string>)
    requires forall n :: n in names ==> n in tables
    requires forall n :: n in loaded ==> n in tables && loaded[n] == tables[n]
    requires forall n :: n in tables ==> n in loaded || n in names
    ensures Filed(loaded, tables, names) == tables
    decreases |names|
  {
    if names == [] {
      assert loaded == tables;
    } else {
      assert names[0] in names;
      var next := loaded[names[0] := tables[names[0]]];
      forall n | n in tables ensures n in next || n in names[1..] {
        if n !in loaded {
          assert n in names;
          assert n == names[0] || n in names[1..];
        }
      }
      FiledAll(next, tables, names[1..]);
    }
  }

  lemma {:induction false} ReadTablesBack(tables: map<string, TableV>, names: seq<string>, db: Db, rest: string)
    requires forall n :: n in names ==>
      n in tables && ValidTable(tables[n]) && AddressableTable(tables[n]) && tables[n].name == n
    requires forall i, j :: 0 <= i < j < |names| ==> names[i] != names[j]
    requires forall n :: n in names ==> n !in db.tables
    ensures ReadTables(EncodeTables(tables, names) + rest, |names|, db) ==
        Ok((db.(tables := Filed(db.tables, tables, names)), rest))
    decreases |names|
  {
    hide EncodeTable, ReadTable, ValidTable, AddressableTable;
    if names == [] {
      assert EncodeTables(tables, names) + rest == rest;
    } else {
      assert names[0] in names;
      var t := tables[names[0]];
      var tail := EncodeTables(tables, names[1..]) + rest;
      assert EncodeTables(tables, names) + rest == EncodeTable(t) + tail;
      ReadTableBack(t, tail);
      assert forall n :: n in names[1..] ==> n in names;
      ReadTablesBack(tables, names[1..], db.(tables := db.tables[names[0] := t]), rest);
    }
  }

  /**
   Loading what was saved gives back the database: its name, tables, schemas, nullability, index definitions and rows in
   order.
   */
  lemma SnapshotRoundTrip(db: Db)
    requires ValidDb(db) && Addressable(db)
    ensures DecodeDb(EncodeDb(db)) == Ok(db)
  {
    hide SortedNames, LittleEndian, FromLittleEndian, EncodeString, ReadString, ReadUnsigned, EncodeTables, ReadTables,
        ValidTable, AddressableTable;
    var names := SortedNames(db.tables.Keys);
    SortedNamesDistinct(db.tables.Keys);
    Power256Values();
    var tables := EncodeTables(db.tables, names) + "";
    var count := LittleEndian(|names|, 8) + tables;
    var name := EncodeString(db.name) + count;
    var version := LittleEndian(VERSION, 4) + name;
    assert EncodeDb(db) == MAGIC + version;
    ReadBytesBack(MAGIC, version);
    ReadUnsignedBack(VERSION, 4, name);
    ReadStringBack(db.name, count);
    ReadUnsignedBack(|names|, 8, tables);
    ReadTablesBack(db.tables, names, Db(db.name, map[]), "");
    FiledAll(map[], db.tables, names);
  }
}
