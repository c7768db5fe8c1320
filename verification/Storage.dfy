/** src/persistence/storage_manager.cpp: the loops that write a database object to a file and read one back. */
module Storage {
  import opened Results
  import opened Values
  import opened Bytes
  import opened Relations
  import opened Snapshot
  import opened Tables
  import opened Databases

  // ----- Writing -----

  method WriteColumns(schema: seq<Column>) returns (out: string)
    ensures out == LittleEndian(|schema|, 8) + EncodeColumns(schema)
  {
    hide LittleEndian, EncodeColumn;
    var body := "";
    assert schema[0..] == schema;
    for i := 0 to |schema|
      invariant EncodeColumns(schema) == body + EncodeColumns(schema[i..])
    {
      assert schema[i..][1..] == schema[i + 1..];
      body := body + EncodeColumn(schema[i]);
    }
    assert body + "" == body;
    return LittleEndian(|schema|, 8) + body;
  }

  method WriteDefinitions(defs: seq<Definition>) returns (out: string)
    ensures out == LittleEndian(|defs|, 8) + EncodeDefinitions(defs)
  {
    hide LittleEndian, EncodeString;
    var body := "";
    assert defs[0..] == defs;
    for i := 0 to |defs|
      invariant EncodeDefinitions(defs) == body + EncodeDefinitions(defs[i..])
    {
      assert defs[i..][1..] == defs[i + 1..];
      body := body + EncodeString(defs[i].0) + EncodeString(defs[i].1);
    }
    assert body + "" == body;
    return LittleEndian(|defs|, 8) + body;
  }

  method WriteRow(row: Row) returns (out: string)
    ensures out == EncodeRow(row)
  {
    hide EncodeValue;
    out := "";
    assert row[0..] == row;
    for i := 0 to |row|
      invariant EncodeRow(row) == out + EncodeRow(row[i..])
    {
      assert row[i..][1..] == row[i + 1..];
      out := out + EncodeValue(row[i]);
    }
  }

  method WriteRows(rows: seq<Row>) returns (out: string)
    ensures out == LittleEndian(|rows|, 8) + EncodeRows(rows)
  {
    hide LittleEndian, EncodeRow;
    var body := "";
    assert rows[0..] == rows;
    for i := 0 to |rows|
      invariant EncodeRows(rows) == body + EncodeRows(rows[i..])
    {
      assert rows[i..][1..] == rows[i + 1..];
      var row := WriteRow(rows[i]);
      body := body + row;
    }
    assert body + "" == body;
    return LittleEndian(|rows|, 8) + body;
  }

  method WriteTable(table: Table) returns (out: string)
    requires table.Valid()
    ensures ValidTable(table.View()) && out == EncodeTable(table.View())
  {
    hide Table.Valid, LittleEndian, EncodeString, EncodeColumns, EncodeDefinitions, EncodeRows, ValidTable, Definitions;
    table.ViewValid();
    var columns := WriteColumns(table.schema);
    var indexes := IndexDefinitions(table);
    var definitions := WriteDefinitions(indexes);
    var rows := table.RowsSnapshot();
    var block := WriteRows(rows);
    return EncodeString(table.name) + columns + definitions + block;
  }

  lemma EncodeTablesNext(tables: map<string, TableV>, names: seq<string>, i: nat)
    requires i < |names| && forall n :: n in names ==> n in tables && ValidTable(tables[n])
    ensures names[i] in tables && ValidTable(tables[names[i]])
    ensures forall n :: n in names[i..] ==> n in names
    ensures EncodeTables(tables, names[i..]) == EncodeTable(tables[names[i]]) + EncodeTables(tables, names[i + 1..])
  {
    hide EncodeTable, ValidTable;
    assert names[i] in names;
    assert names[i..][1..] == names[i + 1..] && names[i..][0] == names[i];
  }

  /** The bytes `saveDatabase` writes. */
  method SaveDatabase(db: Database) returns (out: string)
    requires db.Valid()
    ensures ValidDb(db.View()) && out == EncodeDb(db.View())
  {
    hide Table.Valid, Table.View, Database.Valid, Database.View, ValidDb, ValidTable, EncodeTables, EncodeTable,
        LittleEndian, EncodeString, InOrder, Lists;
    db.ViewValidDb();
    var names := db.ListTables();
    ghost var whole := db.View();
    ListedTables(whole, names);
    db.ViewNames();
    out := MAGIC + LittleEndian(VERSION, 4) + EncodeString(db.name) + LittleEndian(|names|, 8);
    ghost var header := out;
    assert names[0..] == names;
    var body := "";
    for i := 0 to |names|
      invariant EncodeTables(whole.tables, names) == body + EncodeTables(whole.tables, names[i..])
    {
      EncodeTablesNext(whole.tables, names, i);
      db.TableOf(names[i]);
      var block := WriteTable(db.tables[names[i]]);
      body := body + block;
    }
    EncodeTablesEnd(whole.tables, names);
    out := out + body;
    EncodeDbIs(whole, names);
  }

  lemma EncodeTablesEnd(tables: map<string, TableV>, names: seq<string>)
    ensures names[|names|..] == [] && EncodeTables(tables, []) == "" && forall s: string :: s + "" == s
  {
  }

  lemma ListedTables(db: Db, names: seq<string>)
    requires ValidDb(db) && Lists(db, names)
    ensures forall n :: n in names ==> n in db.tables && ValidTable(db.tables[n])
    ensures forall i :: 0 <= i < |names| ==> names[i] in db.tables
  {
    hide ValidTable;
    forall i | 0 <= i < |names| ensures names[i] in db.tables { assert names[i] in names; }
  }

  lemma EncodeDbIs(db: Db, names: seq<string>)
    requires ValidDb(db) && InOrder(db, names) && forall n :: n in names ==> n in db.tables && ValidTable(db.tables[n])
    ensures EncodeDb(db) ==
      MAGIC + LittleEndian(VERSION, 4) + EncodeString(db.name) + LittleEndian(|names|, 8) +
          EncodeTables(db.tables, names)
  {
    hide ValidTable, EncodeTables, EncodeString, LittleEndian;
  }

  // ----- Reading -----

  method LoadColumns(file: string, count: nat) returns (r: Read<seq<Column>>)
    ensures r == ReadColumns(file, count)
  {
    hide ReadColumn;
    var schema: seq<Column> := [];
    var input := file;
    Prepending([], ReadColumns(file, count));
    for i := 0 to count
      invariant ReadColumns(file, count) == Prepended(schema, ReadColumns(input, count - i))
    {
      var column := ReadColumn(input);
      if column.Err? {
        return Err;
      }
      PrependStep(schema, column.value.0, ReadColumns(column.value.1, count - i - 1));
      schema, input := schema + [column.value.0], column.value.1;
    }
    PrependEnd(schema, input);
    return Ok((schema, input));
  }

  method LoadDefinitions(file: string, count: nat) returns (r: Read<seq<Definition>>)
    ensures r == ReadDefinitions(file, count)
  {
    hide ReadString;
    var defs: seq<Definition> := [];
    var input := file;
    Prepending([], ReadDefinitions(file, count));
    for i := 0 to count
      invariant ReadDefinitions(file, count) == Prepended(defs, ReadDefinitions(input, count - i))
    {
      var name := ReadString(input);
      if name.Err? {
        return Err;
      }
      var column := ReadString(name.value.1);
      if column.Err? {
        return Err;
      }
      PrependStep(defs, (name.value.0, column.value.0), ReadDefinitions(column.value.1, count - i - 1));
      defs, input := defs + [(name.value.0, column.value.0)], column.value.1;
    }
    PrependEnd(defs, input);
    return Ok((defs, input));
  }

  method LoadRow(file: string, width: nat) returns (r: Read<Row>)
    ensures r == ReadRow(file, width)
  {
    hide ReadValue;
    var row: Row := [];
    var input := file;
    Prepending([], ReadRow(file, width));
    for i := 0 to width
      invariant ReadRow(file, width) == Prepended(row, ReadRow(input, width - i))
    {
      var value := ReadValue(input);
      if value.Err? {
        return Err;
      }
      PrependStep(row, value.value.0, ReadRow(value.value.1, width - i - 1));
      row, input := row + [value.value.0], value.value.1;
    }
    PrependEnd(row, input);
    return Ok((row, input));
  }

  method LoadRows(file: string, count: nat, width: nat) returns (r: Read<seq<Row>>)
    ensures r == ReadRows(file, count, width)
  {
    hide ReadRow;
    var rows: seq<Row> := [];
    var input := file;
    Prepending([], ReadRows(file, count, width));
    for i := 0 to count
      invariant ReadRows(file, count, width) == Prepended(rows, ReadRows(input, count - i, width))
    {
      var row := LoadRow(input, width);
      if row.Err? {
        return Err;
      }
      PrependStep(rows, row.value.0, ReadRows(row.value.1, count - i - 1, width));
      rows, input := rows + [row.value.0], row.value.1;
    }
    PrependEnd(rows, input);
    return Ok((rows, input));
  }

  /** One table block; `rest` is what follows it. */
  method LoadTable(file: string) returns (r: Result<Table>, rest: string)
    ensures r.Ok? <==> ReadTable(file).Ok?
    ensures r.Ok? ==> r.value.Valid() && fresh(r.value.Repr) && (r.value.View(), rest) == ReadTable(file).value
  {
    hide Table.Valid, ReadString, ReadUnsigned, ReadColumns, ReadDefinitions, ReadRows, ValidRows, CreateIndexes,
        ValidTable;
    rest := "";
    var name :- ReadString(file);
    var columnCount :- ReadUnsigned(name.1, 8);
    var columns :- LoadColumns(columnCount.1, columnCount.0);
    if name.0 == "" || columns.0 == [] {
      return Err, "";
    }
    var table := new Table(name.0, columns.0);
    var indexCount :- ReadUnsigned(columns.1, 8);
    var defs :- LoadDefinitions(indexCount.1, indexCount.0);
    var rowCount :- ReadUnsigned(defs.1, 8);
    var rows :- LoadRows(rowCount.1, rowCount.0, columnCount.0);
    table.ValidOwns();
    var ok := table.ReplaceRows(rows.0);
    if !ok {
      return Err, "";
    }
    AddIndexes(table, defs.0);
    return Ok(table), rows.1;
  }

  method LoadTables(file: string, count: nat, db: Database) returns (r: Result<()>)
    requires db.Valid()
    modifies db
    ensures db.Valid() && fresh(db.Repr - old(db.Repr))
    ensures var read := ReadTables(file, count, old(db.View()));
      (r.Ok? <==> read.Ok?) && (r.Ok? ==> db.View() == read.value.0)
  {
    hide Table.Valid, Table.View, Database.Valid, Database.View, ReadTable, ValidDb;
    var input := file;
    for i := 0 to count
      invariant db.Valid() && fresh(db.Repr - old(db.Repr))
      invariant ReadTables(file, count, old(db.View())) == ReadTables(input, count - i, db.View())
    {
      var table, rest := LoadTable(input);
      if table.Err? {
        return Err;
      }
      table.value.ViewName();
      db.ViewNames();
      if table.value.name in db.tables {
        return Err;
      }
      db.Attach(table.value);
      input := rest;
    }
    return Ok(());
  }

  /** What `loadDatabase` makes of a file's bytes. */
  method LoadDatabase(file: string) returns (r: Result<Database>)
    ensures r.Ok? <==> DecodeDb(file).Ok?
    ensures r.Ok? ==> r.value.Valid() && fresh(r.value.Repr) && r.value.View() == DecodeDb(file).value
  {
    hide Database.Valid, Database.View, ReadBytes, ReadUnsigned, ReadString, ReadTables, ValidDb;
    var magic :- ReadBytes(file, |MAGIC|);
    if magic.0 != MAGIC {
      return Err;
    }
    var version :- ReadUnsigned(magic.1, 4);
    if version.0 != VERSION {
      return Err;
    }
    var name :- ReadString(version.1);
    if name.0 == "" {
      return Err;
    }
    var db := new Database(name.0);
    var count :- ReadUnsigned(name.1, 8);
    var _ :- LoadTables(count.1, count.0, db);
    return Ok(db);
  }
}
