/**
 The value of a database: what its tables hold, apart from how rows, indexes and versions are represented.
 Row predicates, the positional loops of UPDATE and DELETE, and their set-at-a-time meaning.
 */
module Relations {
  import opened Results
  import opened Values
  import opened Ast

  /** A table's observable content; an index is its name and the column position it covers. */
  datatype TableV = TableV(name: string, schema: seq<Column>, rows: seq<Row>, indexColumns: map<string, nat>)

  datatype Db = Db(name: string, tables: map<string, TableV>)

  // ----- Columns and rows -----

  function ColumnIndex(schema: seq<Column>, name: string): (r: Option<nat>)
    ensures r.Some? ==> r.value < |schema| && schema[r.value].name == name
    ensures r.Some? ==> forall j :: 0 <= j < r.value ==> schema[j].name != name
    ensures r.None? <==> forall j :: 0 <= j < |schema| ==> schema[j].name != name
  {
    ColumnIndexFrom(schema, name, 0)
  }

  function ColumnIndexFrom(schema: seq<Column>, name: string, i: nat): (r: Option<nat>)
    requires i <= |schema|
    ensures r.Some? ==> i <= r.value < |schema| && schema[r.value].name == name
    ensures r.Some? ==> forall j :: i <= j < r.value ==> schema[j].name != name
    ensures r.None? <==> forall j :: i <= j < |schema| ==> schema[j].name != name
    decreases |schema| - i
  {
    if i == |schema| then None
    else if schema[i].name == name then Some(i)
    else ColumnIndexFrom(schema, name, i + 1)
  }

  predicate FitsColumn(c: Column, v: Value) {
    if v.Null? then c.nullable else TypeOf(v) == c.ctype
  }

  /** `Table::validateRow` does not throw. */
  predicate ValidRow(schema: seq<Column>, row: Row): (valid: bool)
    ensures valid ==> |row| == |schema|
  {
    |row| == |schema| && forall i :: 0 <= i < |row| ==> FitsColumn(schema[i], row[i])
  }

  predicate ValidRows(schema: seq<Column>, rows: seq<Row>) {
    forall i :: 0 <= i < |rows| ==> ValidRow(schema, rows[i])
  }

  predicate IndexesResolve(schema: seq<Column>, indexColumns: map<string, nat>) {
    forall n :: n in indexColumns ==>
      indexColumns[n] < |schema| && ColumnIndex(schema, schema[indexColumns[n]].name) == Some(indexColumns[n])
  }

  predicate ValidTable(t: TableV) {
    t.name != "" && t.schema != [] && ValidRows(t.schema, t.rows) && IndexesResolve(t.schema, t.indexColumns)
  }

  predicate ValidDb(db: Db) {
    db.name != "" && forall n :: n in db.tables ==> db.tables[n].name == n && ValidTable(db.tables[n])
  }

  // ----- Predicates on rows -----

  predicate Compare(l: Value, op: CompareOp, r: Value) {
    match op
    case EqualTo => l == r
    case GreaterThan => ValueLess(r, l)
    case LessThan => ValueLess(l, r)
  }

  /**
   `QueryExecutor::matches`: operators short-circuit, and an unknown column throws only when it is reached.
   A table's rows are as wide as its schema, so the row has every column the schema resolves.
   */
  function Matches(schema: seq<Column>, row: Row, p: Predicate): Result<bool> {
    match p
    case And(l, r) =>
      var left :- Matches(schema, row, l);
      if left then Matches(schema, row, r) else Ok(false)
    case Or(l, r) =>
      var left :- Matches(schema, row, l);
      if left then Ok(true) else Matches(schema, row, r)
    case Comparison(column, op, value) =>
      var index := ColumnIndex(schema, column);
      if index.None? || index.value >= |row| then Err else Ok(Compare(row[index.value], op, value))
  }

  function MatchesWhere(schema: seq<Column>, row: Row, where: Option<Predicate>): Result<bool> {
    if where.None? then Ok(true) else Matches(schema, row, where.value)
  }

  /** Every column the predicate mentions exists. */
  predicate Resolves(schema: seq<Column>, p: Predicate) {
    match p
    case Comparison(column, _, _) => ColumnIndex(schema, column).Some?
    case And(l, r) => Resolves(schema, l) && Resolves(schema, r)
    case Or(l, r) => Resolves(schema, l) && Resolves(schema, r)
  }

  predicate WhereResolves(schema: seq<Column>, where: Option<Predicate>) {
    where.Some? ==> Resolves(schema, where.value)
  }

  /** The predicate's truth value, read as logic. */
  predicate Satisfies(schema: seq<Column>, row: Row, p: Predicate) {
    match p
    case Comparison(column, op, value) =>
      var index := ColumnIndex(schema, column);
      index.Some? && index.value < |row| && Compare(row[index.value], op, value)
    case And(l, r) => Satisfies(schema, row, l) && Satisfies(schema, row, r)
    case Or(l, r) => Satisfies(schema, row, l) || Satisfies(schema, row, r)
  }

  predicate Selected(schema: seq<Column>, row: Row, where: Option<Predicate>) {
    where.Some? ==> Satisfies(schema, row, where.value)
  }

  lemma {:induction false} MatchesIsLogic(schema: seq<Column>, row: Row, p: Predicate)
    requires |row| == |schema| && Resolves(schema, p)
    ensures Matches(schema, row, p) == Ok(Satisfies(schema, row, p))
  {
    if !p.Comparison? {
      MatchesIsLogic(schema, row, p.left);
      MatchesIsLogic(schema, row, p.right);
    }
  }

  lemma WhereIsLogic(schema: seq<Column>, row: Row, where: Option<Predicate>)
    requires |row| == |schema| && WhereResolves(schema, where)
    ensures MatchesWhere(schema, row, where) == Ok(Selected(schema, row, where))
  {
    if where.Some? {
      MatchesIsLogic(schema, row, where.value);
    }
  }

  // ----- UPDATE -----

  /** `updated[index] = value`; `target` is a column of the row. */
  function Assign(row: Row, target: nat, value: Value): Row {
    if target < |row| then row[target := value] else row
  }

  /** The rows left by a mutation loop, how many it changed, and whether it was stopped by an exception. */
  datatype Changed = Changed(rows: seq<Row>, count: nat, threw: bool)

  /** The UPDATE loop from row `i` on. */
  function UpdateFrom(schema: seq<Column>, rows: seq<Row>, target: nat, value: Value, where: Option<Predicate>,
      i: nat): Changed
    requires target < |schema| && i <= |rows|
    decreases |rows| - i
  {
    if i == |rows| then Changed(rows, 0, false)
    else
      var matched := MatchesWhere(schema, rows[i], where);
      if matched.Err? then Changed(rows, 0, true)
      else if !matched.value then UpdateFrom(schema, rows, target, value, where, i + 1)
      else if !FitsColumn(schema[target], value) then Changed(rows, 0, true)
      else
        var rest := UpdateFrom(schema, rows[i := Assign(rows[i], target, value)], target, value, where, i + 1);
        rest.(count := rest.count + 1)
  }

  /** The row after an update that matches where the predicate says so. */
  function Updated(schema: seq<Column>, row: Row, target: nat, value: Value, where: Option<Predicate>): Row
    requires target < |schema|
  {
    if MatchesWhere(schema, row, where) == Ok(true) then Assign(row, target, value) else row
  }

  /** Row at which the UPDATE loop throws: its predicate fails to evaluate, or it matches and the value does not fit. */
  predicate UpdateFails(schema: seq<Column>, row: Row, target: nat, value: Value, where: Option<Predicate>)
    requires target < |schema|
  {
    var matched := MatchesWhere(schema, row, where);
    matched.Err? || (matched.value && !FitsColumn(schema[target], value))
  }

  /** First row at or after `i` at which the loop throws, or the number of rows. */
  function UpdateStop(schema: seq<Column>, rows: seq<Row>, target: nat, value: Value, where: Option<Predicate>,
      i: nat): (f: nat)
    requires target < |schema| && i <= |rows|
    ensures i <= f <= |rows|
    decreases |rows| - i
  {
    if i == |rows| || UpdateFails(schema, rows[i], target, value, where) then i
    else UpdateStop(schema, rows, target, value, where, i + 1)
  }

  lemma {:induction false} UpdateStopIsFirst(schema: seq<Column>, rows: seq<Row>, target: nat, value: Value,
      where: Option<Predicate>, i: nat)
    requires target < |schema| && i <= |rows|
    ensures var f := UpdateStop(schema, rows, target, value, where, i);
      && (forall j :: i <= j < f ==> !UpdateFails(schema, rows[j], target, value, where))
      && (f < |rows| ==> UpdateFails(schema, rows[f], target, value, where))
    decreases |rows| - i
  {
    if i < |rows| && !UpdateFails(schema, rows[i], target, value, where) {
      UpdateStopIsFirst(schema, rows, target, value, where, i + 1);
    }
  }

  function CountMatching(schema: seq<Column>, rows: seq<Row>, where: Option<Predicate>, i: nat, f: nat): nat
    requires i <= f <= |rows|
    decreases f - i
  {
    if i == f then 0
    else
      (if MatchesWhere(schema, rows[i], where) == Ok(true) then 1 else 0)
      + CountMatching(schema, rows, where, i + 1, f)
  }

  lemma CountMatchingZero(schema: seq<Column>, rows: seq<Row>, where: Option<Predicate>, i: nat, f: nat)
    requires i <= f <= |rows|
    ensures CountMatching(schema, rows, where, i, f) == 0 <==>
      forall j :: i <= j < f ==> MatchesWhere(schema, rows[j], where) != Ok(true)
    decreases f - i
  {
    if i < f {
      CountMatchingZero(schema, rows, where, i + 1, f);
    }
  }

  lemma {:induction false} CountMatchingFrame(schema: seq<Column>, a: seq<Row>, b: seq<Row>, where: Option<Predicate>,
      i: nat, f: nat)
    requires |a| == |b| && i <= f <= |a|
    requires forall j :: i <= j < f ==> a[j] == b[j]
    ensures CountMatching(schema, a, where, i, f) == CountMatching(schema, b, where, i, f)
    decreases f - i
  {
    if i < f {
      CountMatchingFrame(schema, a, b, where, i + 1, f);
    }
  }

  lemma {:induction false} UpdateStopFrame(schema: seq<Column>, a: seq<Row>, b: seq<Row>, target: nat, value: Value,
      where: Option<Predicate>, i: nat)
    requires |a| == |b| && target < |schema| && i <= |a|
    requires forall j :: i <= j < |a| ==> a[j] == b[j]
    ensures UpdateStop(schema, a, target, value, where, i) == UpdateStop(schema, b, target, value, where, i)
    decreases |a| - i
  {
    if i < |a| && !UpdateFails(schema, a[i], target, value, where) {
      UpdateStopFrame(schema, a, b, target, value, where, i + 1);
    }
  }

  /** What the loop has done when it ends or throws: exactly the rows before the stopping row are updated. */
  ghost predicate UpdateMeans(schema: seq<Column>, rows: seq<Row>, target: nat, value: Value, where: Option<Predicate>,
      i: nat)
    requires target < |schema| && i <= |rows|
  {
    var stop := UpdateStop(schema, rows, target, value, where, i);
    var result := UpdateFrom(schema, rows, target, value, where, i);
    && result.threw == (stop < |rows|)
    && result.count == CountMatching(schema, rows, where, i, stop)
    && |result.rows| == |rows|
    && forall j :: 0 <= j < |rows| ==>
      result.rows[j] == if i <= j < stop then Updated(schema, rows[j], target, value, where) else rows[j]
  }

  lemma UpdateHit(schema: seq<Column>, rows: seq<Row>, target: nat, value: Value, where: Option<Predicate>, i: nat,
      next: seq<Row>)
    requires target < |schema| && i < |rows|
    requires MatchesWhere(schema, rows[i], where) == Ok(true) && FitsColumn(schema[target], value)
    requires next == rows[i := Assign(rows[i], target, value)]
    requires UpdateMeans(schema, next, target, value, where, i + 1)
    ensures UpdateMeans(schema, rows, target, value, where, i)
  {
    hide MatchesWhere, FitsColumn, Assign, UpdateFrom, UpdateStop, CountMatching;
    var stop := UpdateStop(schema, next, target, value, where, i + 1);
    UpdateHitSteps(schema, rows, target, value, where, i, next);
    CountMatchingFrame(schema, rows, next, where, i + 1, stop);
    CountOne(schema, rows, where, i, stop);
    assert forall j :: 0 <= j < |rows| && j != i ==> next[j] == rows[j];
  }

  lemma UpdateHitSteps(schema: seq<Column>, rows: seq<Row>, target: nat, value: Value, where: Option<Predicate>,
      i: nat, next: seq<Row>)
    requires target < |schema| && i < |rows|
    requires MatchesWhere(schema, rows[i], where) == Ok(true) && FitsColumn(schema[target], value)
    requires next == rows[i := Assign(rows[i], target, value)]
    ensures UpdateStop(schema, rows, target, value, where, i) == UpdateStop(schema, next, target, value, where, i + 1)
    ensures var rest := UpdateFrom(schema, next, target, value, where, i + 1);
      UpdateFrom(schema, rows, target, value, where, i) == rest.(count := rest.count + 1)
  {
    hide MatchesWhere, FitsColumn, Assign;
    UpdateStopFrame(schema, rows, next, target, value, where, i + 1);
  }

  lemma CountOne(schema: seq<Column>, rows: seq<Row>, where: Option<Predicate>, i: nat, f: nat)
    requires i < f <= |rows| && MatchesWhere(schema, rows[i], where) == Ok(true)
    ensures CountMatching(schema, rows, where, i, f) == 1 + CountMatching(schema, rows, where, i + 1, f)
  {
  }

  lemma {:induction false} UpdateMeaning(schema: seq<Column>, rows: seq<Row>, target: nat, value: Value,
      where: Option<Predicate>, i: nat)
    requires target < |schema| && i <= |rows|
    ensures UpdateMeans(schema, rows, target, value, where, i)
    decreases |rows| - i
  {
    hide MatchesWhere, FitsColumn, Assign;
    if i < |rows| && !UpdateFails(schema, rows[i], target, value, where) {
      if MatchesWhere(schema, rows[i], where) == Ok(true) {
        var next := rows[i := Assign(rows[i], target, value)];
        UpdateMeaning(schema, next, target, value, where, i + 1);
        hide UpdateMeans;
        UpdateHit(schema, rows, target, value, where, i, next);
      } else {
        UpdateMeaning(schema, rows, target, value, where, i + 1);
      }
    }
  }

  /**
   With resolvable columns UPDATE is all or nothing: a simultaneous map over the starting rows, or an exception and no
   change.
   */
  lemma UpdateIsSimultaneous(schema: seq<Column>, rows: seq<Row>, target: nat, value: Value, where: Option<Predicate>)
    requires ValidRows(schema, rows) && target < |schema| && WhereResolves(schema, where)
    ensures var result := UpdateFrom(schema, rows, target, value, where, 0);
      && (result.threw <==>
            !FitsColumn(schema[target], value) && exists i :: 0 <= i < |rows| && Selected(schema, rows[i], where))
      && (result.threw ==> result.rows == rows)
      && (!result.threw ==> |result.rows| == |rows| && forall i :: 0 <= i < |rows| ==>
            result.rows[i] == if Selected(schema, rows[i], where) then rows[i][target := value] else rows[i])
      && (!result.threw ==> (result.count == 0 <==> forall i :: 0 <= i < |rows| ==> !Selected(schema, rows[i], where)))
  {
    forall i | 0 <= i < |rows| ensures MatchesWhere(schema, rows[i], where) == Ok(Selected(schema, rows[i], where)) {
      WhereIsLogic(schema, rows[i], where);
    }
    UpdateMeaning(schema, rows, target, value, where, 0);
    UpdateStopIsFirst(schema, rows, target, value, where, 0);
    CountMatchingZero(schema, rows, where, 0, UpdateStop(schema, rows, target, value, where, 0));
  }

  /**
   A throwing UPDATE leaves the rows as they were exactly when no row before the failing one is really changed.
   The condition can be read off the table before the statement runs.
   */
  lemma FailedUpdateHarmlessExactly(schema: seq<Column>, rows: seq<Row>, target: nat, value: Value,
      where: Option<Predicate>)
    requires ValidRows(schema, rows) && target < |schema|
    ensures var stop := UpdateStop(schema, rows, target, value, where, 0);
      UpdateFrom(schema, rows, target, value, where, 0).rows == rows <==>
        forall i :: 0 <= i < stop && MatchesWhere(schema, rows[i], where) == Ok(true) ==> rows[i][target] == value
  {
    UpdateMeaning(schema, rows, target, value, where, 0);
    var stop := UpdateStop(schema, rows, target, value, where, 0);
    var result := UpdateFrom(schema, rows, target, value, where, 0).rows;
    forall i | 0 <= i < stop && MatchesWhere(schema, rows[i], where) == Ok(true)
      ensures result[i] == rows[i] <==> rows[i][target] == value
    {
      assert Assign(rows[i], target, value)[target] == value;
    }
  }

  // ----- DELETE -----

  /**
   The DELETE loop over positions below `i`, which runs downwards so that erasing does not disturb the rows still to
   visit.
   */
  function DeleteFrom(schema: seq<Column>, rows: seq<Row>, where: Option<Predicate>, i: nat): Changed
    requires i <= |rows|
    decreases i
  {
    if i == 0 then Changed(rows, 0, false)
    else
      var matched := MatchesWhere(schema, rows[i - 1], where);
      if matched.Err? then Changed(rows, 0, true)
      else if !matched.value then DeleteFrom(schema, rows, where, i - 1)
      else
        var rest := DeleteFrom(schema, rows[..i - 1] + rows[i..], where, i - 1);
        rest.(count := rest.count + 1)
  }

  /** The rows a predicate does not select, in order. */
  function Kept(schema: seq<Column>, rows: seq<Row>, where: Option<Predicate>): (r: seq<Row>)
    ensures |r| <= |rows|
  {
    if rows == [] then []
    else if MatchesWhere(schema, rows[0], where) == Ok(true) then Kept(schema, rows[1..], where)
    else [rows[0]] + Kept(schema, rows[1..], where)
  }

  /** Position after the last row below `i` whose predicate fails to evaluate. */
  function DeleteStop(schema: seq<Column>, rows: seq<Row>, where: Option<Predicate>, i: nat): (f: nat)
    requires i <= |rows|
    ensures f <= i
  {
    if i == 0 || MatchesWhere(schema, rows[i - 1], where).Err? then i else DeleteStop(schema, rows, where, i - 1)
  }

  lemma {:induction false} DeleteStopIsLast(schema: seq<Column>, rows: seq<Row>, where: Option<Predicate>, i: nat)
    requires i <= |rows|
    ensures var f := DeleteStop(schema, rows, where, i);
      && (forall j :: f <= j < i ==> MatchesWhere(schema, rows[j], where).Ok?)
      && (f > 0 ==> MatchesWhere(schema, rows[f - 1], where).Err?)
  {
    if i > 0 && MatchesWhere(schema, rows[i - 1], where).Ok? {
      DeleteStopIsLast(schema, rows, where, i - 1);
    }
  }

  lemma {:induction false} DeleteStopFrame(schema: seq<Column>, a: seq<Row>, b: seq<Row>, where: Option<Predicate>,
      i: nat)
    requires i <= |a| && i <= |b|
    requires forall j :: 0 <= j < i ==> a[j] == b[j]
    ensures DeleteStop(schema, a, where, i) == DeleteStop(schema, b, where, i)
  {
    if i > 0 && MatchesWhere(schema, a[i - 1], where).Ok? {
      DeleteStopFrame(schema, a, b, where, i - 1);
    }
  }

  lemma {:induction false} KeptAppend(schema: seq<Column>, a: seq<Row>, b: seq<Row>, where: Option<Predicate>)
    ensures Kept(schema, a + b, where) == Kept(schema, a, where) + Kept(schema, b, where)
  {
    if a == [] {
      assert a + b == b;
    } else {
      assert (a + b)[1..] == a[1..] + b;
      KeptAppend(schema, a[1..], b, where);
    }
  }

  /** What the loop has done: the rows from the stopping point up to `i` are filtered. */
  ghost predicate DeleteMeans(schema: seq<Column>, rows: seq<Row>, where: Option<Predicate>, i: nat)
    requires i <= |rows|
  {
    var stop := DeleteStop(schema, rows, where, i);
    var result := DeleteFrom(schema, rows, where, i);
    && result.threw == (stop > 0)
    && result.rows == rows[..stop] + Kept(schema, rows[stop..i], where) + rows[i..]
    && result.count == (i - stop) - |Kept(schema, rows[stop..i], where)|
  }

  lemma DeleteHit(schema: seq<Column>, rows: seq<Row>, where: Option<Predicate>, i: nat, next: seq<Row>)
    requires 0 < i <= |rows| && MatchesWhere(schema, rows[i - 1], where) == Ok(true)
    requires next == rows[..i - 1] + rows[i..] && DeleteMeans(schema, next, where, i - 1)
    ensures DeleteMeans(schema, rows, where, i)
  {
    hide MatchesWhere, Kept;
    var stop := DeleteStop(schema, rows, where, i);
    DeleteStopFrame(schema, rows, next, where, i - 1);
    Splice(rows, stop, i);
    KeptAppend(schema, rows[stop..i - 1], [rows[i - 1]], where);
    KeptOne(schema, rows[i - 1], where);
    var kept := Kept(schema, rows[stop..i - 1], where);
    assert kept + [] == kept;
    assert Kept(schema, rows[stop..i], where) == Kept(schema, rows[stop..i - 1], where);
  }

  lemma Splice(rows: seq<Row>, stop: nat, i: nat)
    requires stop < i <= |rows|
    ensures var next := rows[..i - 1] + rows[i..];
      next[stop..i - 1] == rows[stop..i - 1] && next[..stop] == rows[..stop] && next[i - 1..] == rows[i..]
    ensures rows[stop..i] == rows[stop..i - 1] + [rows[i - 1]]
    ensures rows[i - 1..] == [rows[i - 1]] + rows[i..]
  {
  }

  lemma DeleteMiss(schema: seq<Column>, rows: seq<Row>, where: Option<Predicate>, i: nat)
    requires 0 < i <= |rows| && MatchesWhere(schema, rows[i - 1], where) == Ok(false)
    requires DeleteMeans(schema, rows, where, i - 1)
    ensures DeleteMeans(schema, rows, where, i)
  {
    hide MatchesWhere, Kept;
    var stop := DeleteStop(schema, rows, where, i);
    Splice(rows, stop, i);
    KeptAppend(schema, rows[stop..i - 1], [rows[i - 1]], where);
    KeptOne(schema, rows[i - 1], where);
    DeleteKeepsLast(rows[..stop], Kept(schema, rows[stop..i - 1], where), rows[i - 1], rows[i..]);
  }

  lemma {:induction false} DeleteMeaning(schema: seq<Column>, rows: seq<Row>, where: Option<Predicate>, i: nat)
    requires i <= |rows|
    ensures DeleteMeans(schema, rows, where, i)
    decreases i
  {
    hide MatchesWhere;
    if i == 0 || MatchesWhere(schema, rows[i - 1], where).Err? {
      assert rows[i..i] == [] && rows[..i] + rows[i..] == rows;
    } else if MatchesWhere(schema, rows[i - 1], where).value {
      hide DeleteMeans;
      DeleteMeaning(schema, rows[..i - 1] + rows[i..], where, i - 1);
      DeleteHit(schema, rows, where, i, rows[..i - 1] + rows[i..]);
    } else {
      hide DeleteMeans;
      DeleteMeaning(schema, rows, where, i - 1);
      DeleteMiss(schema, rows, where, i);
    }
  }

  lemma KeptOne(schema: seq<Column>, row: Row, where: Option<Predicate>)
    ensures Kept(schema, [row], where) == if MatchesWhere(schema, row, where) == Ok(true) then [] else [row]
  {
    assert Kept(schema, [row][1..], where) == [];
  }

  lemma DeleteKeepsLast(before: seq<Row>, kept: seq<Row>, last: Row, after: seq<Row>)
    ensures before + kept + ([last] + after) == before + (kept + [last]) + after
  {
  }

  /** With resolvable columns DELETE leaves exactly the rows it does not select, in order, and counts the others. */
  lemma DeleteIsFilter(schema: seq<Column>, rows: seq<Row>, where: Option<Predicate>)
    requires ValidRows(schema, rows) && WhereResolves(schema, where)
    ensures DeleteFrom(schema, rows, where, |rows|)
         == Changed(Kept(schema, rows, where), |rows| - |Kept(schema, rows, where)|, false)
  {
    forall i | 0 <= i < |rows| ensures MatchesWhere(schema, rows[i], where).Ok? {
      WhereIsLogic(schema, rows[i], where);
    }
    DeleteMeaning(schema, rows, where, |rows|);
    DeleteStopIsLast(schema, rows, where, |rows|);
    assert rows[0..|rows|] == rows && rows[..0] == [] && rows[|rows|..] == [];
    assert [] + Kept(schema, rows, where) + [] == Kept(schema, rows, where);
  }

  lemma {:induction false} KeptAll(schema: seq<Column>, rows: seq<Row>, where: Option<Predicate>)
    ensures |Kept(schema, rows, where)| == |rows| <==>
        forall i :: 0 <= i < |rows| ==> MatchesWhere(schema, rows[i], where) != Ok(true)
    ensures |Kept(schema, rows, where)| == |rows| ==> Kept(schema, rows, where) == rows
  {
    if rows != [] {
      KeptAll(schema, rows[1..], where);
      assert forall i :: 0 < i < |rows| ==> rows[i] == rows[1..][i - 1];
      assert [rows[0]] + rows[1..] == rows;
    }
  }

  /** A throwing DELETE leaves the rows as they were exactly when no row after the failing one is selected. */
  lemma FailedDeleteHarmlessExactly(schema: seq<Column>, rows: seq<Row>, where: Option<Predicate>)
    ensures var stop := DeleteStop(schema, rows, where, |rows|);
      DeleteFrom(schema, rows, where, |rows|).rows == rows <==>
        forall i :: stop <= i < |rows| ==> MatchesWhere(schema, rows[i], where) != Ok(true)
  {
    hide MatchesWhere, Kept, DeleteFrom, DeleteStop;
    var stop := DeleteStop(schema, rows, where, |rows|);
    DeleteMeaning(schema, rows, where, |rows|);
    var suffix := rows[stop..];
    var kept := Kept(schema, suffix, where);
    KeptAll(schema, suffix, where);
    assert rows[stop..|rows|] == suffix && rows[|rows|..] == [];
    assert forall i :: stop <= i < |rows| ==> rows[i] == suffix[i - stop];
    assert rows[..stop] + kept + [] == rows[..stop] + kept;
    if |kept| == |suffix| {
      assert rows[..stop] + suffix == rows;
    } else {
      assert |rows[..stop] + kept| != |rows|;
    }
  }

  /** A DELETE that counts no row leaves them all. */
  lemma QuietDelete(schema: seq<Column>, rows: seq<Row>, where: Option<Predicate>)
    ensures var result := DeleteFrom(schema, rows, where, |rows|);
      !result.threw && result.count == 0 ==> result.rows == rows
    ensures DeleteFrom(schema, rows, where, |rows|).threw <==> DeleteStop(schema, rows, where, |rows|) > 0
  {
    hide MatchesWhere, Kept, DeleteFrom;
    DeleteMeaning(schema, rows, where, |rows|);
    KeptAll(schema, rows, where);
    assert rows[0..|rows|] == rows && rows[..0] == [] && rows[|rows|..] == [];
    assert [] + rows + [] == rows;
  }

  // ----- The loops keep rows valid -----

  lemma {:induction false} UpdateKeepsValid(schema: seq<Column>, rows: seq<Row>, target: nat, value: Value,
      where: Option<Predicate>, i: nat)
    requires ValidRows(schema, rows) && target < |schema| && i <= |rows|
    ensures ValidRows(schema, UpdateFrom(schema, rows, target, value, where, i).rows)
    decreases |rows| - i
  {
    hide MatchesWhere;
    if i < |rows| && !UpdateFails(schema, rows[i], target, value, where) {
      if MatchesWhere(schema, rows[i], where) == Ok(true) {
        var row := Assign(rows[i], target, value);
        assert forall j :: 0 <= j < |row| ==> FitsColumn(schema[j], row[j]);
        UpdateKeepsValid(schema, rows[i := row], target, value, where, i + 1);
      } else {
        UpdateKeepsValid(schema, rows, target, value, where, i + 1);
      }
    }
  }

  lemma {:induction false} DeleteKeepsValid(schema: seq<Column>, rows: seq<Row>, where: Option<Predicate>, i: nat)
    requires ValidRows(schema, rows) && i <= |rows|
    ensures ValidRows(schema, DeleteFrom(schema, rows, where, i).rows)
    decreases i
  {
    hide MatchesWhere;
    if i > 0 && MatchesWhere(schema, rows[i - 1], where).Ok? {
      DeleteKeepsValid(schema, if MatchesWhere(schema, rows[i - 1], where).value then rows[..i - 1] +
          rows[i..] else rows, where, i - 1);
    }
  }

  // ----- Tables and databases -----

  function NewTable(name: string, schema: seq<Column>): (r: Result<TableV>)
    ensures r.Ok? ==> ValidTable(r.value)
  {
    if name == "" || schema == [] then Err else Ok(TableV(name, schema, [], map[]))
  }

  /** `Table::createIndex`: unchanged when the column is unknown or the name is taken. */
  function CreateIndexOn(t: TableV, name: string, column: string): (r: (TableV, bool))
    ensures ValidTable(t) ==> ValidTable(r.0)
    ensures r.1 <==> ColumnIndex(t.schema, column).Some? && name !in t.indexColumns
    ensures !r.1 ==> r.0 == t
  {
    var index := ColumnIndex(t.schema, column);
    if index.None? || name in t.indexColumns then (t, false)
    else (t.(indexColumns := t.indexColumns[name := index.value]), true)
  }

  function CreateTableIn(db: Db, name: string, schema: seq<Column>): (r: Result<(Db, bool)>)
    ensures r.Ok? && ValidDb(db) ==> ValidDb(r.value.0)
  {
    var t :- NewTable(name, schema);
    if name in db.tables then Ok((db, false)) else Ok((db.(tables := db.tables[name := t]), true))
  }

  function DropTableIn(db: Db, name: string): (r: (Db, bool))
    ensures ValidDb(db) ==> ValidDb(r.0)
  {
    if name in db.tables then (db.(tables := db.tables - {name}), true) else (db, false)
  }

  /** Index definitions go through column names and back. */
  function Reindexed(schema: seq<Column>, indexColumns: map<string, nat>): (r: map<string, nat>)
    ensures IndexesResolve(schema, indexColumns) ==> r == indexColumns
  {
    map n | n in indexColumns && indexColumns[n] < |schema| :: ColumnIndex(schema, schema[indexColumns[n]].name).value
  }

  /** The table is rebuilt under its new name: rows reinserted, indexes recreated. */
  function RenameTableIn(db: Db, oldName: string, newName: string): (r: (Db, bool))
    ensures ValidDb(db) && newName != "" ==> ValidDb(r.0)
  {
    if oldName !in db.tables || newName in db.tables then (db, false)
    else
      var t := db.tables[oldName];
      var replacement := TableV(newName, t.schema, t.rows, Reindexed(t.schema, t.indexColumns));
      (db.(tables := (db.tables - {oldName})[newName := replacement]), true)
  }
}
