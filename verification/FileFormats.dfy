/** The bytes of the log and of a snapshot, spelled out: one version of the program reads what another has written. */
module FileFormats {
  import opened Results
  import opened Values
  import opened Relations
  import opened Bytes
  import opened WalFormat
  import opened Snapshot

  function Zeros(n: nat): (s: string)
    ensures |s| == n && forall i :: 0 <= i < n ==> s[i] == 0 as char
  {
    seq(n, i => 0 as char)
  }

  lemma {:induction false} ZeroBytes(width: nat)
    ensures LittleEndian(0, width) == Zeros(width)
  {
    if width > 0 {
      ZeroBytes(width - 1);
    }
  }

  /** The lowest byte comes first. */
  lemma SmallNumber(n: nat, width: nat)
    requires n < 256 && width > 0
    ensures LittleEndian(n, width) == [n as char] + Zeros(width - 1)
  {
    ZeroBytes(width - 1);
  }

  lemma OneByte(n: nat)
    requires n < 256
    ensures LittleEndian(n, 1) == [n as char]
  {
    SmallNumber(n, 1);
    assert Zeros(0) == "";
  }

  /** `AWCT`, version 1, number 258, INSERT as operation 4, one byte of payload. */
  lemma RecordBytes()
    ensures EncodeRecord(WalRecord(258, InsertOp, "x")) ==
      "AWCT" + [1 as char, 0 as char, 0 as char, 0 as char] + ([2 as char, 1 as char] + Zeros(6)) + [4 as char] +
      ([1 as char] + Zeros(7)) + "x"
  {
    hide LittleEndian;
    MagicBytes();
    SmallNumber(1, 4);
    assert Zeros(3) == [0 as char, 0 as char, 0 as char];
    TwoBytes();
    OneByte(4);
    SmallNumber(1, 8);
    assert |"x"| == 1;
  }

  lemma MagicBytes()
    ensures LittleEndian(WAL_MAGIC, 4) == "AWCT"
  {
    assert LittleEndian(0x54, 1) == ['T'] by { OneByte(0x54); assert 0x54 as char == 'T'; }
    assert LittleEndian(0x5443, 2) == ['C'] + LittleEndian(0x54, 1);
    assert LittleEndian(0x544357, 3) == ['W'] + LittleEndian(0x5443, 2);
    assert LittleEndian(0x54435741, 4) == ['A'] + LittleEndian(0x544357, 3);
  }

  lemma TwoBytes()
    ensures LittleEndian(258, 8) == [2 as char, 1 as char] + Zeros(6)
  {
    SmallNumber(1, 7);
    assert LittleEndian(258, 8) == [2 as char] + LittleEndian(1, 7);
  }

  /** The operations are numbered in the order the source declares them. */
  lemma OperationCodes()
    ensures OperationCode(CreateDatabaseOp) == 0 && OperationCode(CreateTableOp) == 1 && OperationCode(DropTableOp) == 2
    ensures OperationCode(RenameTableOp) == 3 && OperationCode(InsertOp) == 4 && OperationCode(UpdateOp) == 5
    ensures OperationCode(DeleteOp) == 6 && OperationCode(CreateIndexOp) == 7 && OperationCode(SaveDatabaseOp) == 8
  {
  }

  /** Values: a type byte and eight bytes in two's complement, the bits of a double, or a length and the characters. */
  lemma ValueBytes()
    ensures EncodeValue(Null) == [255 as char]
    ensures EncodeValue(Int(3)) == [0 as char] + ([3 as char] + Zeros(7))
    ensures EncodeValue(Int(-0x8000_0000_0000_0000)) == [0 as char] + (Zeros(7) + [128 as char])
    ensures EncodeValue(Dbl(5)) == [1 as char] + ([5 as char] + Zeros(7))
    ensures EncodeValue(Str("ab")) == [2 as char] + (([2 as char] + Zeros(7)) + "ab")
  {
    hide LittleEndian;
    OneByte(255);
    OneByte(0);
    OneByte(1);
    OneByte(2);
    SmallNumber(3, 8);
    SmallNumber(5, 8);
    SmallNumber(2, 8);
    HighByte();
  }

  lemma HighByte()
    ensures LittleEndian(0x8000_0000_0000_0000, 8) == Zeros(7) + [128 as char]
  {
    OneByte(128);
    assert LittleEndian(0x8000, 2) == [0 as char] + LittleEndian(0x80, 1);
    assert LittleEndian(0x8000_00, 3) == [0 as char] + LittleEndian(0x8000, 2);
    assert LittleEndian(0x8000_0000, 4) == [0 as char] + LittleEndian(0x8000_00, 3);
    assert LittleEndian(0x8000_0000_00, 5) == [0 as char] + LittleEndian(0x8000_0000, 4);
    assert LittleEndian(0x8000_0000_0000, 6) == [0 as char] + LittleEndian(0x8000_0000_00, 5);
    assert LittleEndian(0x8000_0000_0000_00, 7) == [0 as char] + LittleEndian(0x8000_0000_0000, 6);
    assert LittleEndian(0x8000_0000_0000_0000, 8) == [0 as char] + LittleEndian(0x8000_0000_0000_00, 7);
  }

  /** A column is its name, its type and whether it may be NULL. */
  lemma ColumnBytes()
    ensures EncodeColumn(Column("c", DoubleType, true)) == (([1 as char] + Zeros(7)) + "c") + [1 as char] + [1 as char]
    ensures EncodeColumn(Column("c", IntType, false)) == (([1 as char] + Zeros(7)) + "c") + [0 as char] + [0 as char]
  {
    hide LittleEndian;
    SmallNumber(1, 8);
    OneByte(1);
    OneByte(0);
    assert |"c"| == 1;
  }

  lemma OneName(name: string)
    ensures SortedNames({name}) == [name]
  {
    var names := SortedNames({name});
    assert |names| == 1 && names[0] in names;
  }

  const SMALL_TABLE := TableV("t", [Column("a", IntType, true)], [[Int(3)]], map["i" := 0])

  /** A table is its name, then its columns, its indexes by name and column name, and its rows, each list counted. */
  lemma TableBytes()
    ensures ValidTable(SMALL_TABLE) && EncodeTable(SMALL_TABLE) ==
      EncodeString("t")
      + (LittleEndian(1, 8) + (EncodeString("a") + [0 as char] + [1 as char]))
      + (LittleEndian(1, 8) + (EncodeString("i") + EncodeString("a")))
      + (LittleEndian(1, 8) + ([0 as char] + ([3 as char] + Zeros(7))))
  {
    hide LittleEndian, EncodeString, EncodeValue;
    var t := SMALL_TABLE;
    assert ColumnIndexFrom(t.schema, "a", 0) == Some(0);
    assert ValidRow(t.schema, t.rows[0]);
    ValueBytes();
    OneByte(0);
    OneByte(1);
    OneName("i");
    assert t.indexColumns.Keys == {"i"};
    assert Definitions(t) == [("i", "a")];
    assert EncodeDefinitions([("i", "a")]) == EncodeString("i") + EncodeString("a") + EncodeDefinitions([]);
    assert EncodeColumns(t.schema) == EncodeColumn(t.schema[0]) + EncodeColumns([]);
    assert EncodeRows(t.rows) == EncodeRow(t.rows[0]) + EncodeRows([]);
    assert EncodeRow(t.rows[0]) == EncodeValue(Int(3)) + EncodeRow([]);
  }

  /** A snapshot opens with `TCRDB001`, version 1, the name and the number of tables. */
  lemma SnapshotBytes()
    ensures ValidDb(Db("d", map[])) && EncodeDb(Db("d", map[])) ==
      "TCRDB001" + ([1 as char] + Zeros(3)) + (([1 as char] + Zeros(7)) + "d") + Zeros(8)
  {
    hide LittleEndian;
    SmallNumber(1, 4);
    SmallNumber(1, 8);
    ZeroBytes(8);
    assert |"d"| == 1;
    var none: map<string, TableV> := map[];
    assert SortedNames(none.Keys) == [];
  }
}
