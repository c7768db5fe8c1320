/**
 What the access paths of a SELECT return. An index holds the row ids grouped by key; looking rows up through the groups
 is compared with scanning the rows and testing each.
 */
module AccessPaths {
  import opened Results
  import opened Values
  import Ordering
  import opened Ast
  import opened Relations
  import opened Indexes
  import opened BTreeIndexes
  import opened RowStores

  function KeyOf(row: Row, column: nat): Value {
    if column < |row| then row[column] else Null
  }

  // ----- The full scan -----

  /** The rows a WHERE clause selects, in order; the first row whose predicate throws ends the scan. */
  function Chosen(schema: seq<Column>, rows: seq<Row>, where: Option<Predicate>): Result<seq<Row>> {
    if rows == [] then Ok([])
    else
      var last := rows[|rows| - 1];
      var before :- Chosen(schema, rows[..|rows| - 1], where);
      var matched :- MatchesWhere(schema, last, where);
      Ok(before + if matched then [last] else [])
  }

  /** The rows whose key compares with `value` as asked, in order. */
  function Having(rows: seq<Row>, column: nat, op: CompareOp, value: Value): seq<Row> {
    if rows == [] then []
    else
      var last := rows[|rows| - 1];
      Having(rows[..|rows| - 1], column, op, value) + if Compare(KeyOf(last, column), op, value) then [last] else []
  }

  lemma {:induction false} ChosenIsHaving(schema: seq<Column>, rows: seq<Row>, p: Predicate)
    requires p.Comparison? && ColumnIndex(schema, p.column).Some? && ValidRows(schema, rows)
    ensures Chosen(schema, rows, Some(p)) == Ok(Having(rows, ColumnIndex(schema, p.column).value, p.op, p.value))
  {
    if rows != [] {
      ChosenIsHaving(schema, rows[..|rows| - 1], p);
      assert ValidRow(schema, rows[|rows| - 1]);
    }
  }

  lemma HavingOne(rows: seq<Row>, row: Row, column: nat, op: CompareOp, value: Value)
    ensures Having(rows + [row], column, op, value) ==
      Having(rows, column, op, value) + if Compare(KeyOf(row, column), op, value) then [row] else []
  {
    assert (rows + [row])[..|rows|] == rows;
  }

  lemma {:induction false} HavingAppend(a: seq<Row>, b: seq<Row>, column: nat, op: CompareOp, value: Value)
    ensures Having(a + b, column, op, value) == Having(a, column, op, value) + Having(b, column, op, value)
    decreases |b|
  {
    hide Compare, KeyOf;
    if b == [] {
      assert a + b == a && Having(a, column, op, value) + [] == Having(a, column, op, value);
    } else {
      var front, last := b[..|b| - 1], b[|b| - 1];
      assert a + b == (a + front) + [last];
      HavingAppend(a, front, column, op, value);
      HavingOne(a + front, last, column, op, value);
    }
  }

  lemma {:induction false} HavingAll(rows: seq<Row>, column: nat, op: CompareOp, value: Value)
    ensures forall row :: row in Having(rows, column, op, value) <==>
        row in rows && Compare(KeyOf(row, column), op, value)
  {
    hide Compare, KeyOf;
    if rows != [] {
      var front, last := rows[..|rows| - 1], rows[|rows| - 1];
      HavingAll(front, column, op, value);
      assert rows == front + [last];
    }
  }

  lemma {:induction false} HavingTwice(rows: seq<Row>, column: nat, op: CompareOp, value: Value, key: Value)
    ensures Having(Having(rows, column, op, value), column, EqualTo, key) ==
      if Compare(key, op, value) then Having(rows, column, EqualTo, key) else []
  {
    if rows != [] {
      var front, last := rows[..|rows| - 1], rows[|rows| - 1];
      HavingTwice(front, column, op, value, key);
      hide Compare, KeyOf;
      if Compare(KeyOf(last, column), op, value) {
        HavingOne(Having(front, column, op, value), last, column, EqualTo, key);
      } else {
        assert Having(front, column, op, value) + [] == Having(front, column, op, value);
      }
      EqualCompares(KeyOf(last, column), key);
    }
  }

  lemma EqualCompares(a: Value, b: Value)
    ensures Compare(a, EqualTo, b) <==> a == b
  {
  }

  // ----- What an index holds -----

  /** Row ids grouped by the value of one column, ascending in each group: rows filed one after the other. */
  function Grouped(rows: seq<Row>, column: nat): Entries {
    if rows == [] then map[]
    else Inserted(Grouped(rows[..|rows| - 1], column), KeyOf(rows[|rows| - 1], column), |rows| - 1)
  }

  lemma GroupedOne(rows: seq<Row>, n: nat, column: nat)
    requires n < |rows|
    ensures Grouped(rows[..n + 1], column) == Inserted(Grouped(rows[..n], column), KeyOf(rows[n], column), n)
  {
    assert rows[..n + 1][..n] == rows[..n];
  }

  /** A group is exactly the positions of the rows with its key. */
  lemma {:induction false} GroupHolds(rows: seq<Row>, column: nat, key: Value, id: nat)
    ensures id in Ids(Grouped(rows, column), key) <==> id < |rows| && KeyOf(rows[id], column) == key
    decreases |rows|
  {
    hide KeyOf;
    if rows != [] {
      var front := rows[..|rows| - 1];
      GroupHolds(front, column, key, id);
      assert id < |front| ==> front[id] == rows[id];
    }
  }

  // ----- The hash path -----

  lemma {:induction false} PickedGroup(rows: seq<Row>, n: nat, column: nat, key: Value)
    requires n <= |rows|
    ensures Picked(rows, Ids(Grouped(rows[..n], column), key)) == Having(rows[..n], column, EqualTo, key)
    decreases n
  {
    hide KeyOf, Picked;
    if n == 0 {
      PickedNone(rows);
    } else {
      PickedGroup(rows, n - 1, column, key);
      GroupedOne(rows, n - 1, column);
      var group := Grouped(rows[..n - 1], column);
      assert rows[..n] == rows[..n - 1] + [rows[n - 1]];
      HavingOne(rows[..n - 1], rows[n - 1], column, EqualTo, key);
      PickedExtend(rows, Ids(group, key), n - 1);
    }
  }

  lemma PickedNone(rows: seq<Row>)
    ensures Picked(rows, []) == []
  {
  }

  /** An equality lookup returns the rows a scan returns, in the same order. */
  lemma HashPathIsScan(rows: seq<Row>, column: nat, key: Value)
    ensures Picked(rows, Ids(Grouped(rows, column), key)) == Having(rows, column, EqualTo, key)
  {
    assert rows[..|rows|] == rows;
    PickedGroup(rows, |rows|, column, key);
  }

  // ----- Stable sorting -----

  /** Keys never decrease. */
  ghost predicate Ascending(rows: seq<Row>, column: nat) {
    forall i, j :: 0 <= i < j < |rows| ==> !ValueLess(KeyOf(rows[j], column), KeyOf(rows[i], column))
  }

  /** `sorted` is `rows` ordered by key, rows with one key in their original order. */
  ghost predicate IsStableSort(sorted: seq<Row>, rows: seq<Row>, column: nat) {
    && Ascending(sorted, column)
    && forall key :: Having(sorted, column, EqualTo, key) == Having(rows, column, EqualTo, key)
  }

  lemma LastKeyFirst(a: seq<Row>, b: seq<Row>, column: nat)
    requires Ascending(a, column) && b != []
    requires forall key :: Having(a, column, EqualTo, key) == Having(b, column, EqualTo, key)
    ensures a != [] && !ValueLess(KeyOf(a[|a| - 1], column), KeyOf(b[|b| - 1], column))
  {
    hide KeyOf, ValueLess;
    var last := b[|b| - 1];
    var key := KeyOf(last, column);
    HavingAll(a, column, EqualTo, key);
    HavingAll(b, column, EqualTo, key);
    EqualCompares(key, key);
    assert last in b;
    assert last in a;
    var i :| 0 <= i < |a| && a[i] == last;
    ValueOrder();
  }

  /** There is only one stable sort. */
  lemma {:induction false} StableSortUnique(a: seq<Row>, b: seq<Row>, column: nat)
    requires Ascending(a, column) && Ascending(b, column)
    requires forall key :: Having(a, column, EqualTo, key) == Having(b, column, EqualTo, key)
    ensures a == b
    decreases |a|
  {
    hide KeyOf, ValueLess;
    if a == [] {
      if b != [] {
        LastKeyFirst(a, b, column);
      }
    } else {
      LastKeyFirst(b, a, column);
      LastKeyFirst(a, b, column);
      ValueOrder();
      var fa, la, fb, lb := a[..|a| - 1], a[|a| - 1], b[..|b| - 1], b[|b| - 1];
      var key := KeyOf(la, column);
      assert KeyOf(lb, column) == key;
      assert a == fa + [la] && b == fb + [lb];
      forall k ensures Having(fa, column, EqualTo, k) == Having(fb, column, EqualTo, k) && (k == key ==> la == lb) {
        HavingOne(fa, la, column, EqualTo, k);
        HavingOne(fb, lb, column, EqualTo, k);
        EqualCompares(key, k);
        SameEnds(Having(fa, column, EqualTo, k), la, Having(fb, column, EqualTo, k), lb);
        assert Having(fa, column, EqualTo, k) + [] == Having(fa, column, EqualTo, k);
        assert Having(fb, column, EqualTo, k) + [] == Having(fb, column, EqualTo, k);
      }
      assert Having(fa, column, EqualTo, key) == Having(fb, column, EqualTo, key);
      StableSortUnique(fa, fb, column);
    }
  }

  lemma SameEnds(a: seq<Row>, x: Row, b: seq<Row>, y: Row)
    ensures a + [x] == b + [y] ==> a == b && x == y
  {
    if a + [x] == b + [y] {
      assert (a + [x])[..|a|] == a && (b + [y])[..|b|] == b;
      assert (a + [x])[|a|] == x && (b + [y])[|b|] == y;
    }
  }

  lemma {:induction false} HavingCounts(rows: seq<Row>, column: nat, row: Row)
    ensures multiset(Having(rows, column, EqualTo, KeyOf(row, column)))[row] == multiset(rows)[row]
  {
    if rows != [] {
      var front, last := rows[..|rows| - 1], rows[|rows| - 1];
      assert rows == front + [last];
      HavingCounts(front, column, row);
    }
  }

  /** A stable sort loses and invents no row. */
  lemma StableSortPermutes(sorted: seq<Row>, rows: seq<Row>, column: nat)
    requires IsStableSort(sorted, rows, column)
    ensures multiset(sorted) == multiset(rows)
  {
    forall row ensures multiset(sorted)[row] == multiset(rows)[row] {
      HavingCounts(sorted, column, row);
      HavingCounts(rows, column, row);
    }
  }

  // ----- The ordered path -----

  lemma {:induction false} PickedAppend(rows: seq<Row>, a: seq<nat>, b: seq<nat>)
    ensures Picked(rows, a + b) == Picked(rows, a) + Picked(rows, b)
  {
    if a == [] {
      assert a + b == b;
    } else {
      assert (a + b)[1..] == a[1..] + b;
      PickedAppend(rows, a[1..], b);
    }
  }

  /** The rows found key by key. */
  function Collected(rows: seq<Row>, column: nat, keys: seq<Value>, keep: Value -> bool): seq<Row> {
    if keys == [] then []
    else
      (if keep(keys[0]) then Having(rows, column, EqualTo, keys[0]) else [])
      + Collected(rows, column, keys[1..], keep)
  }

  lemma {:induction false} GatherCollects(rows: seq<Row>, column: nat, keys: seq<Value>, keep: Value -> bool)
    requires forall k :: k in keys ==> k in Grouped(rows, column)
    ensures Picked(rows, Gather(Grouped(rows, column), keys, keep)) == Collected(rows, column, keys, keep)
    decreases |keys|
  {
    hide Grouped, Having, Picked;
    var groups := Grouped(rows, column);
    PickedNone(rows);
    if keys != [] {
      assert keys[0] in keys;
      HashPathIsScan(rows, column, keys[0]);
      PickedAppend(rows, if keep(keys[0]) then groups[keys[0]] else [], Gather(groups, keys[1..], keep));
      GatherCollects(rows, column, keys[1..], keep);
    }
  }

  lemma {:induction false} CollectedKeys(rows: seq<Row>, column: nat, keys: seq<Value>, keep: Value -> bool)
    ensures forall row :: row in Collected(rows, column, keys, keep) ==> KeyOf(row, column) in keys
  {
    hide KeyOf, Having;
    if keys != [] {
      HavingAll(rows, column, EqualTo, keys[0]);
      CollectedKeys(rows, column, keys[1..], keep);
      forall row | row in Collected(rows, column, keys, keep) ensures KeyOf(row, column) in keys {
        if row in Collected(rows, column, keys[1..], keep) {
          assert KeyOf(row, column) in keys[1..];
        } else {
          EqualCompares(KeyOf(row, column), keys[0]);
        }
      }
    }
  }

  lemma AscendingAppend(a: seq<Row>, b: seq<Row>, column: nat)
    requires Ascending(a, column) && Ascending(b, column)
    requires forall x, y :: x in a && y in b ==> !ValueLess(KeyOf(y, column), KeyOf(x, column))
    ensures Ascending(a + b, column)
  {
    hide KeyOf, ValueLess;
    forall i, j | 0 <= i < j < |a + b| ensures !ValueLess(KeyOf((a + b)[j], column), KeyOf((a + b)[i], column)) {
      if i < |a| <= j { assert a[i] in a && b[j - |a|] in b; }
    }
  }

  lemma {:induction false} CollectedAscends(rows: seq<Row>, column: nat, keys: seq<Value>, keep: Value -> bool)
    requires Ordering.Increasing(ValueLess, keys)
    ensures Ascending(Collected(rows, column, keys, keep), column)
    decreases |keys|
  {
    hide KeyOf, Having, ValueLess;
    if keys != [] {
      ValueOrder();
      var head := if keep(keys[0]) then Having(rows, column, EqualTo, keys[0]) else [];
      var rest := Collected(rows, column, keys[1..], keep);
      CollectedAscends(rows, column, keys[1..], keep);
      CollectedKeys(rows, column, keys[1..], keep);
      HavingAll(rows, column, EqualTo, keys[0]);
      forall x | x in head ensures KeyOf(x, column) == keys[0] { EqualCompares(KeyOf(x, column), keys[0]); }
      forall x, y | x in head && y in rest ensures !ValueLess(KeyOf(y, column), KeyOf(x, column)) {
        var i :| 0 <= i < |keys[1..]| && keys[1..][i] == KeyOf(y, column);
        assert ValueLess(keys[0], keys[i + 1]);
      }
      AscendingAppend(head, rest, column);
    }
  }

  lemma FirstOnce(keys: seq<Value>)
    requires Ordering.Increasing(ValueLess, keys) && keys != []
    ensures keys[0] !in keys[1..]
  {
    hide ValueLess;
    ValueOrder();
  }

  lemma {:induction false} CollectedHas(rows: seq<Row>, column: nat, keys: seq<Value>, keep: Value -> bool, key: Value)
    requires Ordering.Increasing(ValueLess, keys)
    ensures Having(Collected(rows, column, keys, keep), column, EqualTo, key) ==
      if key in keys && keep(key) then Having(rows, column, EqualTo, key) else []
    decreases |keys|
  {
    hide KeyOf, ValueLess, Having, Compare;
    HavingNone(column, key);
    if keys != [] {
      var head := if keep(keys[0]) then Having(rows, column, EqualTo, keys[0]) else [];
      var rest := Collected(rows, column, keys[1..], keep);
      CollectedHas(rows, column, keys[1..], keep, key);
      HavingAppend(head, rest, column, EqualTo, key);
      HavingTwice(rows, column, EqualTo, keys[0], key);
      EqualCompares(key, keys[0]);
      FirstOnce(keys);
      assert key in keys <==> key == keys[0] || key in keys[1..];
      var found := Having(rows, column, EqualTo, key);
      assert found + [] == found && [] + found == found;
    }
  }

  lemma HavingNone(column: nat, key: Value)
    ensures Having([], column, EqualTo, key) == []
  {
  }

  /** A range lookup returns exactly the stable sort by key of what a scan returns; null keys count as the smallest. */
  lemma OrderedPathIsStableSort(rows: seq<Row>, column: nat, op: CompareOp, value: Value)
    ensures var groups := Grouped(rows, column);
      IsStableSort(Picked(rows, Gather(groups, SortedValues(groups.Keys), k => Compare(k, op, value))),
                   Having(rows, column, op, value), column)
  {
    hide Having, Grouped, SortedValues, Gather, Picked, KeyOf, ValueLess, Compare;
    var groups := Grouped(rows, column);
    var keys := SortedValues(groups.Keys);
    var keep := k => Compare(k, op, value);
    GatherCollects(rows, column, keys, keep);
    CollectedAscends(rows, column, keys, keep);
    var found := Collected(rows, column, keys, keep);
    forall key ensures Having(found, column, EqualTo, key) ==
        Having(Having(rows, column, op, value), column, EqualTo, key) {
      CollectedHas(rows, column, keys, keep, key);
      HavingTwice(rows, column, op, value, key);
      HashPathIsScan(rows, column, key);
      PickedNone(rows);
    }
  }
}
