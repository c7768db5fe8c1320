/** src/storage/database.cpp: a database as a map of table objects that share nothing, and its deep copy. */
module Databases {
  import opened Results
  import opened Values
  import opened Relations
  import opened Snapshot
  import opened Tables
  import opened Ast
  import opened Statements

  // ----- Copying a table -----

  /** `indexDefinitions`: index names with the names of their columns, in name order. */
  method IndexDefinitions(table: Table) returns (defs: seq<Definition>)
    requires table.Valid()
    ensures defs == Definitions(table.View())
  {
    hide Table.Valid, SortedNames;
    var names := SortedNames(table.indexColumns.Keys);
    defs := [];
    for i := 0 to |names|
      invariant |defs| == i && forall j :: 0 <= j < i ==>
          defs[j] == (names[j], ColumnName(table.schema, table.indexColumns, names[j]))
    {
      defs := defs + [(names[i], ColumnName(table.schema, table.indexColumns, names[i]))];
    }
  }

  method AddIndexes(table: Table, defs: seq<Definition>)
    requires table.Valid()
    modifies table.Repr
    ensures table.Valid() && old(table.Repr) <= table.Repr && fresh(table.Repr - old(table.Repr))
    ensures table.View() == CreateIndexes(old(table.View()), defs) && table.history == old(table.history)
  {
    hide Table.Valid, CreateIndexOn;
    assert defs[0..] == defs;
    for i := 0 to |defs|
      invariant table.Valid() && old(table.Repr) <= table.Repr && fresh(table.Repr - old(table.Repr))
      invariant CreateIndexes(old(table.View()), defs) == CreateIndexes(table.View(), defs[i..]) &&
          table.history == old(table.history)
    {
      assert defs[i..][1..] == defs[i + 1..];
      var _ := ExecuteCreateIndex(table, defs[i].0, defs[i].1);
    }
    assert defs[|defs|..] == [];
  }

  /** Recreating the indexes of a table by column name gives the same indexes. */
  lemma DefinitionsRestore(t: TableV, name: string)
    requires ValidTable(t)
    ensures CreateIndexes(TableV(name, t.schema, t.rows, map[]), Definitions(t)) == t.(name := name)
  {
    hide ValidRows, ColumnIndex, Definitions, CreateIndexes;
    DefinitionsAre(t);
    CreateIndexesBack(TableV(name, t.schema, t.rows, map[]), t.indexColumns, Definitions(t));
  }

  /**
   A new table with the rows and indexes of another: refilled as `clone` does, or row by row as `renameTable` does.
   */
  method CopyTable(source: Table, name: string, refill: bool) returns (t: Table)
    requires source.Valid() && name != ""
    ensures t.Valid() && fresh(t.Repr) && t.name == name && t.View() == source.View().(name := name)
    ensures t.history == Appends(source.View().rows)
  {
    hide Table.Valid, CreateIndexes, Definitions, ValidRows, ValidTable;
    source.ViewValid();
    SchemaAndRows(source.View());
    t := new Table(name, source.schema);
    var rows := source.RowsSnapshot();
    if refill {
      t.ValidOwns();
      var _ := t.ReplaceRows(rows);
    } else {
      var _ := ExecuteInsert(t, rows);
    }
    var defs := IndexDefinitions(source);
    DefinitionsRestore(source.View(), name);
    AddIndexes(t, defs);
  }

  lemma SchemaAndRows(t: TableV)
    requires ValidTable(t)
    ensures t.schema != [] && ValidRows(t.schema, t.rows)
    ensures [] + t.rows == t.rows && [] + Appends(t.rows) == Appends(t.rows)
  {
  }

  class Database {
    const name: string
    var tables: map<string, Table>
    /** The objects that make up the database. */
    ghost var Repr: set<object>

    ghost predicate Holds(n: string)
      reads this, Repr
    {
      && n in tables && tables[n] in Repr && tables[n].Repr <= Repr && this !in tables[n].Repr
      && tables[n] in tables[n].Repr && tables[n].rowStore in tables[n].Repr
      && tables[n].Valid() && tables[n].name == n
    }

    ghost predicate Apart(a: string, b: string)
      reads this, tables.Values
    {
      a in tables && b in tables && tables[a].Repr !! tables[b].Repr
    }

    /** Each table is sound, filed under its own name, and shares no object with another. */
    ghost predicate Valid()
      reads this, Repr
    {
      && this in Repr && name != "" && tables.Values <= Repr
      && (forall n :: n in tables ==> Holds(n))
      && (forall a, b :: a in tables && b in tables && a != b ==> Apart(a, b))
    }

    /** The database as a value. */
    ghost function View(): Db
      requires Valid()
      reads this, Repr
    {
      Db(name, map n | n in tables :: assert Holds(n); tables[n].View())
    }

    constructor (name: string)
      requires name != ""
      ensures Valid() && fresh(Repr) && View() == Db(name, map[]) && this.name == name
    {
      this.name := name;
      this.tables := map[];
      new;
      Repr := {this};
    }

    /** Runs a statement on one of the tables; the others share nothing with it and stay as they are. */
    method RunOn(n: string, q: Command) returns (threw: bool, count: nat)
      requires Valid() && n in tables && OnOneTable(q)
      modifies Repr
      ensures Valid() && tables == old(tables) && fresh(Repr - old(Repr))
      ensures var outcome := TableStep(old(View()).tables[n], q);
        && View() == old(View()).(tables := old(View()).tables[n := outcome.view])
        && threw == outcome.threw && count == outcome.count
    {
      hide TableStep, Table.Valid, Table.View, Database.Holds;
      threw, count := ChangeTable(n, q);
      forall a, b | a in tables && b in tables && a != b ensures Apart(a, b) {
        assert old(Apart(a, b)) && old(Holds(a)) && old(Holds(b));
        HeldWithin(a);
        HeldWithin(b);
      }
    }

    lemma HeldWithin(n: string)
      requires Holds(n)
      ensures n in tables && tables[n] in Repr && tables[n].Repr <= Repr
    {
    }

    method ChangeTable(n: string, q: Command) returns (threw: bool, count: nat)
      requires Valid() && n in tables && OnOneTable(q)
      modifies Repr
      ensures tables == old(tables) && old(Repr) <= Repr && fresh(Repr - old(Repr)) && this in Repr && Holds(n)
      ensures fresh(tables[n].Repr - old(tables[n].Repr))
      ensures TableOutcome(tables[n].View(), threw, count) == TableStep(old(tables[n].View()), q)
      ensures forall m :: m in tables && m != n ==>
        Holds(m) && tables[m].View() == old(tables[m].View()) && tables[m].Repr == old(tables[m].Repr)
    {
      hide TableStep, Table.Valid, Table.View;
      var t := tables[n];
      assert Holds(n);
      threw, count := ExecuteOn(t, q);
      Repr := Repr + t.Repr;
      t.ValidOwns();
      forall m | m in tables && m != n
        ensures Holds(m) && tables[m].View() == old(tables[m].View()) && tables[m].Repr == old(tables[m].Repr)
      {
        assert old(Holds(m)) && old(Apart(m, n));
      }
    }

    /** Files a table that shares nothing with the database. */
    method Attach(t: Table)
      requires Valid() && t.Valid() && t.name !in tables && t.Repr !! Repr
      modifies this
      ensures Valid() && Repr == old(Repr) + t.Repr
      ensures View() == old(View()).(tables := old(View()).tables[t.name := t.View()])
    {
      hide Table.Valid, Table.View, Database.Holds;
      FileTable(t);
      forall a, b | a in tables && b in tables && a != b ensures Apart(a, b) {
        if a != t.name && b != t.name {
          assert old(Apart(a, b));
        }
      }
      assert View().tables == old(View()).tables[t.name := t.View()];
    }

    method FileTable(t: Table)
      requires Valid() && t.Valid() && t.name !in tables && t.Repr !! Repr
      modifies this
      ensures tables == old(tables)[t.name := t] && Repr == old(Repr) + t.Repr && tables.Values <= Repr && Holds(t.name)
      ensures t.Repr == old(t.Repr) && t.View() == old(t.View())
      ensures forall m :: m in old(tables) ==>
        Holds(m) && tables[m].View() == old(tables[m].View()) && tables[m].Repr == old(tables[m].Repr) &&
            tables[m].Repr <= old(Repr)
    {
      hide Table.Valid, Table.View;
      t.ValidOwns();
      tables := tables[t.name := t];
      Repr := Repr + t.Repr;
      forall m | m in old(tables)
        ensures Holds(m) && tables[m].View() == old(tables[m].View()) && tables[m].Repr == old(tables[m].Repr) &&
            tables[m].Repr <= old(Repr)
      {
        assert old(Holds(m));
      }
    }

    method DropTable(n: string) returns (dropped: bool)
      requires Valid()
      modifies this
      ensures Valid() && Repr == old(Repr)
      ensures tables == old(tables) - {n} && View() == DropTableIn(old(View()), n).0 &&
          dropped == DropTableIn(old(View()), n).1
      ensures dropped <==> n in old(View()).tables
      ensures View().name == old(View()).name && View().tables == old(View()).tables - {n}
    {
      hide Table.Valid, Table.View, ValidDb;
      if n !in tables {
        return false;
      }
      tables := tables - {n};
      forall m | m in tables ensures Holds(m) && tables[m].View() == old(tables[m].View()) { assert old(Holds(m)); }
      forall a, b | a in tables && b in tables && a != b ensures Apart(a, b) { assert old(Apart(a, b)); }
      assert View().tables == old(View()).tables - {n};
      return true;
    }

    /** Throws on an empty name or schema, even when the table exists. */
    method CreateTable(n: string, schema: seq<Column>) returns (r: Result<bool>)
      requires Valid()
      modifies this
      ensures Valid() && fresh(Repr - old(Repr))
      ensures var created := CreateTableIn(old(View()), n, schema);
        if created.Err? then r == Err && View() == old(View())
        else r == Ok(created.value.1) && View() == created.value.0
      ensures n == "" || schema == [] ==> r == Err && View() == old(View())
      ensures n != "" && schema != [] && n in old(View()).tables ==> r == Ok(false) && View() == old(View())
      ensures n != "" && schema != [] && n !in old(View()).tables ==>
        r == Ok(true) && View() == Db(old(View()).name, old(View()).tables[n := TableV(n, schema, [], map[])])
    {
      hide Table.Valid;
      if n == "" || schema == [] {
        return Err;
      }
      var t := new Table(n, schema);
      if n in tables {
        return Ok(false);
      }
      Attach(t);
      return Ok(true);
    }

    lemma TableOf(n: string)
      requires Valid() && n in tables
      ensures tables[n].Valid() && tables[n].name == n && n in View().tables && View().tables[n] == tables[n].View()
      ensures tables[n].Repr <= Repr && this !in tables[n].Repr && tables[n].View().name == n != ""
    {
      hide Table.Valid;
      assert Holds(n);
      tables[n].ViewValid();
    }

    lemma ViewNames()
      requires Valid()
      ensures View().tables.Keys == tables.Keys && View().name == name != "" && this in Repr
    {
    }

    lemma ViewValidDb()
      requires Valid()
      ensures ValidDb(View())
    {
      hide Table.Valid, Table.View, ValidTable;
      forall n | n in tables ensures View().tables[n].name == n && ValidTable(View().tables[n]) {
        TableOf(n);
        tables[n].ViewValid();
      }
    }

    /** The table is rebuilt under its new name. An empty new name throws after the old table was taken out. */
    method RenameTable(oldName: string, newName: string) returns (r: Result<bool>)
      requires Valid()
      modifies this
      ensures Valid() && fresh(Repr - old(Repr))
      ensures var taken := oldName !in old(View()).tables || newName in old(View()).tables;
        if newName == "" && !taken then r == Err && View() == DropTableIn(old(View()), oldName).0
        else r == Ok(!taken) && View() == RenameTableIn(old(View()), oldName, newName).0
    {
      hide Table.Valid, Table.View, ValidDb, Database.Valid, Database.View, Reindexed, DropTableIn, RenameTableIn;
      ViewNames();
      RenameIs(View(), oldName, newName);
      if oldName !in tables || newName in tables {
        return Ok(false);
      }
      var source := tables[oldName];
      TableOf(oldName);
      source.ViewValid();
      ReindexedIs(source.View());
      var _ := DropTable(oldName);
      if newName == "" {
        return Err;
      }
      var replacement := CopyTable(source, newName, false);
      Attach(replacement);
      return Ok(true);
    }

    method ListTables() returns (names: seq<string>)
      requires Valid()
      ensures Lists(View(), names) && InOrder(View(), names)
    {
      hide Database.Valid, Database.View;
      ViewNames();
      names := SortedNames(tables.Keys);
      SortedNamesDistinct(tables.Keys);
    }

    /** One turn of the copying loop. */
    method CopyInto(copy: Database, n: string)
      requires Valid() && n in View().tables && copy.Valid() && n !in copy.View().tables && copy.Repr !! Repr
      modifies copy
      ensures copy.Valid() && fresh(copy.Repr - old(copy.Repr)) && Valid() && View() == old(View())
      ensures copy.View() == old(copy.View()).(tables := old(copy.View()).tables[n := old(View()).tables[n]])
    {
      hide Table.Valid, Table.View, Database.Valid, Database.View;
      ViewNames();
      TableOf(n);
      copy.ViewNames();
      var t := CopyTable(tables[n], n, true);
      copy.Attach(t);
    }

    /** A deep copy: the same content, no object shared. */
    method Clone() returns (copy: Database)
      requires Valid()
      ensures copy.Valid() && fresh(copy.Repr) && copy.View() == View()
    {
      hide Table.Valid, Table.View, Database.Valid, Database.View, FirstTables, Lists, InOrder;
      ViewNames();
      copy := new Database(name);
      var names := ListTables();
      ghost var whole := View();
      FirstTablesEnds(whole, names);
      for i := 0 to |names|
        invariant Valid() && View() == whole
        invariant copy.Valid() && fresh(copy.Repr) && copy.View() == FirstTables(whole, names, i)
      {
        FirstTablesNext(whole, names, i);
        CopyInto(copy, names[i]);
      }
    }
  }

  /** The map's key order. */
  ghost predicate InOrder(db: Db, names: seq<string>) {
    names == SortedNames(db.tables.Keys)
  }

  /** The names of the tables, each once. */
  ghost predicate Lists(db: Db, names: seq<string>) {
    && (forall n :: n in names <==> n in db.tables)
    && forall i, j :: 0 <= i < j < |names| ==> names[i] != names[j]
  }

  /** The database with only the first `i` of the named tables. */
  ghost function FirstTables(db: Db, names: seq<string>, i: nat): Db
    requires i <= |names|
  {
    db.(tables := map n | n in db.tables && n in names[..i] :: db.tables[n])
  }

  lemma FirstTablesEnds(db: Db, names: seq<string>)
    requires Lists(db, names)
    ensures FirstTables(db, names, 0) == Db(db.name, map[]) && FirstTables(db, names, |names|) == db
  {
    assert names[..|names|] == names;
  }

  lemma FirstTablesNext(db: Db, names: seq<string>, i: nat)
    requires i < |names| && Lists(db, names)
    ensures var before := FirstTables(db, names, i);
      && names[i] in db.tables && names[i] !in before.tables
      && FirstTables(db, names, i + 1) == before.(tables := before.tables[names[i] := db.tables[names[i]]])
  {
    assert names[i] in names;
    assert names[..i + 1] == names[..i] + [names[i]];
  }

  lemma RenameIs(db: Db, oldName: string, newName: string)
    ensures var taken := oldName !in db.tables || newName in db.tables;
      && (taken ==> RenameTableIn(db, oldName, newName) == (db, false))
      && (!taken ==> DropTableIn(db, oldName) == (db.(tables := db.tables - {oldName}), true))
      && (!taken ==>
        var t := db.tables[oldName];
        var renamed := TableV(newName, t.schema, t.rows, Reindexed(t.schema, t.indexColumns));
        RenameTableIn(db, oldName, newName).0 == db.(tables := (db.tables - {oldName})[newName := renamed]))
  {
  }

  lemma ReindexedIs(t: TableV)
    requires ValidTable(t)
    ensures Reindexed(t.schema, t.indexColumns) == t.indexColumns
  {
  }
}
