/**
 The join of src/execution/query_executor.cpp: column resolution, the grouped join and the nested loop it stands for.
 */
module Joins {
  import opened Results
  import opened Values
  import opened Ast
  import opened Relations
  import opened AccessPaths

  // ----- Columns of a joined row -----

  predicate EndsWith(name: string, suffix: string) {
    |name| >= |suffix| && name[|name| - |suffix|..] == suffix
  }

  /** Positions of the columns with the given suffix, before `n`. */
  function Suffixed(columns: seq<string>, suffix: string, n: nat): (r: seq<nat>)
    requires n <= |columns|
    ensures forall i: nat :: i in r <==> i < n && EndsWith(columns[i], suffix)
  {
    if n == 0 then []
    else Suffixed(columns, suffix, n - 1) + if EndsWith(columns[n - 1], suffix) then [n - 1] else []
  }

  function FirstNamed(columns: seq<string>, name: string, i: nat): (r: Option<nat>)
    requires i <= |columns|
    ensures r.Some? ==> i <= r.value < |columns| && columns[r.value] == name && forall j :: i <= j < r.value ==>
        columns[j] != name
    ensures r.None? ==> forall j :: i <= j < |columns| ==> columns[j] != name
    decreases |columns| - i
  {
    if i == |columns| then None else if columns[i] == name then Some(i) else FirstNamed(columns, name, i + 1)
  }

  /**
   A full name wins; otherwise exactly one column may end in `.name`, and two make the reference ambiguous, which
   throws.
   */
  function ResolveResultColumn(columns: seq<string>, requested: string): (r: Result<Option<nat>>)
    ensures r.Ok? && r.value.Some? ==> r.value.value < |columns|
  {
    var exact := FirstNamed(columns, requested, 0);
    if exact.Some? then Ok(exact)
    else
      var matching := Suffixed(columns, "." + requested, |columns|);
      if |matching| == 0 then Ok(None)
      else if |matching| == 1 then assert matching[0] in matching; Ok(Some(matching[0]))
      else Err
  }

  method FindResultColumn(columns: seq<string>, requested: string) returns (r: Result<Option<nat>>)
    ensures r == ResolveResultColumn(columns, requested)
  {
    for i := 0 to |columns|
      invariant FirstNamed(columns, requested, 0) == FirstNamed(columns, requested, i)
    {
      if columns[i] == requested {
        return Ok(Some(i));
      }
    }
    var found: Option<nat> := None;
    var suffix := "." + requested;
    hide EndsWith;
    for i := 0 to |columns|
      invariant Suffixed(columns, suffix, i) == if found.None? then [] else [found.value]
    {
      if EndsWith(columns[i], suffix) {
        if found.Some? {
          SuffixedGrows(columns, suffix, i + 1);
          return Err;
        }
        found := Some(i);
      }
    }
    return Ok(found);
  }

  lemma {:induction false} SuffixedGrows(columns: seq<string>, suffix: string, n: nat)
    requires n <= |columns|
    ensures |Suffixed(columns, suffix, n)| <= |Suffixed(columns, suffix, |columns|)|
    decreases |columns| - n
  {
    if n < |columns| {
      SuffixedGrows(columns, suffix, n + 1);
    }
  }

  /** A join column may be written with its table's name in front. */
  function ResolveTableColumn(schema: seq<Column>, tableName: string, requested: string): (r: Option<nat>)
    ensures r.Some? ==> r.value < |schema|
  {
    var qualifier := tableName + ".";
    if |requested| >= |qualifier| && requested[..|qualifier|] ==
        qualifier then ColumnIndex(schema, requested[|qualifier|..])
    else ColumnIndex(schema, requested)
  }

  function Qualified(tableName: string, schema: seq<Column>): (r: seq<string>)
    ensures |r| == |schema|
  {
    seq(|schema|, i requires 0 <= i < |schema| => tableName + "." + schema[i].name)
  }

  /** The predicate on a joined row; an unknown or ambiguous column throws when it is reached. */
  function MatchesJoined(columns: seq<string>, row: Row, p: Predicate): Result<bool> {
    match p
    case And(l, r) =>
      var left :- MatchesJoined(columns, row, l);
      if left then MatchesJoined(columns, row, r) else Ok(false)
    case Or(l, r) =>
      var left :- MatchesJoined(columns, row, l);
      if left then Ok(true) else MatchesJoined(columns, row, r)
    case Comparison(column, op, value) =>
      var index :- ResolveResultColumn(columns, column);
      if index.None? || index.value >= |row| then Err else Ok(Compare(row[index.value], op, value))
  }

  function JoinedMatches(columns: seq<string>, row: Row, where: Option<Predicate>): Result<bool> {
    if where.None? then Ok(true) else MatchesJoined(columns, row, where.value)
  }

  // ----- The nested loop -----

  /** One left row with each of the given right rows, filtered. */
  function Paired(left: Row, rights: seq<Row>, columns: seq<string>, where: Option<Predicate>): Result<seq<Row>> {
    if rights == [] then Ok([])
    else
      var joined := left + rights[|rights| - 1];
      var before :- Paired(left, rights[..|rights| - 1], columns, where);
      var matched :- JoinedMatches(columns, joined, where);
      Ok(before + if matched then [joined] else [])
  }

  /** One left row with each right row whose key equals its own, filtered. */
  function Probe(left: Row, rights: seq<Row>, leftColumn: nat, rightColumn: nat, columns: seq<string>,
      where: Option<Predicate>): Result<seq<Row>> {
    if rights == [] then Ok([])
    else
      var right := rights[|rights| - 1];
      var before :- Probe(left, rights[..|rights| - 1], leftColumn, rightColumn, columns, where);
      if KeyOf(right, rightColumn) != KeyOf(left, leftColumn) then Ok(before)
      else
        var matched :- JoinedMatches(columns, left + right, where);
        Ok(before + if matched then [left + right] else [])
  }

  /** Left rows in order, and for each the right rows in order. */
  function NestedLoop(lefts: seq<Row>, rights: seq<Row>, leftColumn: nat, rightColumn: nat, columns: seq<string>,
      where: Option<Predicate>): Result<seq<Row>> {
    if lefts == [] then Ok([])
    else
      var before :- NestedLoop(lefts[..|lefts| - 1], rights, leftColumn, rightColumn, columns, where);
      var found :- Probe(lefts[|lefts| - 1], rights, leftColumn, rightColumn, columns, where);
      Ok(before + found)
  }

  lemma {:induction false} ProbeIsGroup(left: Row, rights: seq<Row>, leftColumn: nat, rightColumn: nat,
      columns: seq<string>, where: Option<Predicate>)
    ensures Probe(left, rights, leftColumn, rightColumn, columns, where) ==
      Paired(left, Having(rights, rightColumn, EqualTo, KeyOf(left, leftColumn)), columns, where)
    decreases |rights|
  {
    hide JoinedMatches, KeyOf;
    if rights != [] {
      var front, right := rights[..|rights| - 1], rights[|rights| - 1];
      var group := Having(front, rightColumn, EqualTo, KeyOf(left, leftColumn));
      ProbeIsGroup(left, front, leftColumn, rightColumn, columns, where);
      if KeyOf(right, rightColumn) == KeyOf(left, leftColumn) {
        assert (group + [right])[..|group|] == group;
      } else {
        assert group + [] == group;
      }
    }
  }

  lemma {:induction false} PairedStops(left: Row, rights: seq<Row>, columns: seq<string>, where: Option<Predicate>,
      i: nat)
    requires i <= |rights| && Paired(left, rights[..i], columns, where).Err?
    ensures Paired(left, rights, columns, where).Err?
    decreases |rights|
  {
    hide JoinedMatches;
    if i == |rights| {
      assert rights[..i] == rights;
    } else {
      assert rights[..|rights| - 1][..i] == rights[..i];
      PairedStops(left, rights[..|rights| - 1], columns, where, i);
    }
  }

  lemma {:induction false} LoopStops(lefts: seq<Row>, rights: seq<Row>, leftColumn: nat, rightColumn: nat,
      columns: seq<string>, where: Option<Predicate>, i: nat)
    requires i <= |lefts| && NestedLoop(lefts[..i], rights, leftColumn, rightColumn, columns, where).Err?
    ensures NestedLoop(lefts, rights, leftColumn, rightColumn, columns, where).Err?
    decreases |lefts|
  {
    hide Probe;
    if i == |lefts| {
      assert lefts[..i] == lefts;
    } else {
      assert lefts[..|lefts| - 1][..i] == lefts[..i];
      LoopStops(lefts[..|lefts| - 1], rights, leftColumn, rightColumn, columns, where, i);
    }
  }

  // ----- The grouped join -----

  function GroupOf(groups: map<Value, seq<Row>>, key: Value): seq<Row> {
    if key in groups then groups[key] else []
  }

  /** Right rows by key, each group in row order. */
  method GroupRows(rights: seq<Row>, rightColumn: nat) returns (groups: map<Value, seq<Row>>)
    ensures forall key :: GroupOf(groups, key) == Having(rights, rightColumn, EqualTo, key)
  {
    hide Having;
    groups := map[];
    forall key ensures Having(rights[..0], rightColumn, EqualTo, key) == [] { HavingNone(rightColumn, key); }
    for i := 0 to |rights|
      invariant forall key :: GroupOf(groups, key) == Having(rights[..i], rightColumn, EqualTo, key)
    {
      var k := KeyOf(rights[i], rightColumn);
      assert rights[..i + 1] == rights[..i] + [rights[i]];
      ghost var before := groups;
      groups := groups[k := (if k in groups then groups[k] else []) + [rights[i]]];
      forall key ensures GroupOf(groups, key) == Having(rights[..i + 1], rightColumn, EqualTo, key) {
        HavingOne(rights[..i], rights[i], rightColumn, EqualTo, key);
        assert GroupOf(before, key) + [] == GroupOf(before, key);
      }
    }
    assert rights[..|rights|] == rights;
  }

  method PairRows(left: Row, group: seq<Row>, columns: seq<string>, where: Option<Predicate>)
      returns (r: Result<seq<Row>>)
    ensures r == Paired(left, group, columns, where)
  {
    hide JoinedMatches;
    var rows: seq<Row> := [];
    for i := 0 to |group|
      invariant Paired(left, group[..i], columns, where) == Ok(rows)
    {
      assert group[..i + 1][..i] == group[..i];
      var joined := left + group[i];
      var matched := JoinedMatches(columns, joined, where);
      if matched.Err? {
        PairedStops(left, group, columns, where, i + 1);
        return Err;
      }
      if matched.value {
        rows := rows + [joined];
      } else {
        assert rows + [] == rows;
      }
    }
    assert group[..|group|] == group;
    return Ok(rows);
  }

  /** The grouped join returns what the nested loop returns, rows in the same order and exceptions included. */
  method HashJoin(lefts: seq<Row>, rights: seq<Row>, leftColumn: nat, rightColumn: nat, columns: seq<string>,
      where: Option<Predicate>)
    returns (r: Result<seq<Row>>)
    ensures r == NestedLoop(lefts, rights, leftColumn, rightColumn, columns, where)
  {
    hide Having, Paired, Probe;
    var groups := GroupRows(rights, rightColumn);
    var rows: seq<Row> := [];
    for i := 0 to |lefts|
      invariant NestedLoop(lefts[..i], rights, leftColumn, rightColumn, columns, where) == Ok(rows)
    {
      assert lefts[..i + 1][..i] == lefts[..i];
      var key := KeyOf(lefts[i], leftColumn);
      ProbeIsGroup(lefts[i], rights, leftColumn, rightColumn, columns, where);
      assert GroupOf(groups, key) == Having(rights, rightColumn, EqualTo, key);
      var group := if key in groups then groups[key] else [];
      var found := PairRows(lefts[i], group, columns, where);
      if found.Err? {
        LoopStops(lefts, rights, leftColumn, rightColumn, columns, where, i + 1);
        return Err;
      }
      rows := rows + found.value;
    }
    assert lefts[..|lefts|] == lefts;
    return Ok(rows);
  }

  /** `executeJoinSelect` up to ORDER BY: unknown join columns throw, then the two tables' rows are joined. */
  function JoinOf(left: TableV, right: TableV, join: JoinClause, where: Option<Predicate>): Result<seq<Row>> {
    var leftColumn := ResolveTableColumn(left.schema, left.name, join.leftColumn);
    var rightColumn := ResolveTableColumn(right.schema, right.name, join.rightColumn);
    if leftColumn.None? || rightColumn.None? then Err
    else NestedLoop(left.rows, right.rows, leftColumn.value, rightColumn.value,
                    Qualified(left.name, left.schema) + Qualified(right.name, right.schema), where)
  }

  /** Positions below `n`, each greater than the one before. */
  predicate Rising(found: seq<nat>, n: nat) {
    && (forall i :: 0 <= i < |found| ==> found[i] < n)
    && (forall i, j :: 0 <= i < j < |found| ==> found[i] < found[j])
  }

  lemma RisingAppend(before: seq<nat>, last: seq<nat>, n: nat)
    requires Rising(before, n) && (last == [] || last == [n])
    ensures Rising(before + last, n + 1)
  {
  }

  lemma {:induction false} SuffixedRises(columns: seq<string>, suffix: string, n: nat)
    requires n <= |columns|
    ensures Rising(Suffixed(columns, suffix, n), n)
  {
    hide EndsWith, Rising;
    if n > 0 {
      SuffixedRises(columns, suffix, n - 1);
      RisingAppend(Suffixed(columns, suffix, n - 1), if EndsWith(columns[n - 1], suffix) then [n - 1] else [], n - 1);
    } else {
      NothingRises();
    }
  }

  lemma NothingRises()
    ensures Rising([], 0)
  {
  }

  /** A short name throws exactly when no column has it in full and two columns end in it. */
  lemma AmbiguousExactly(columns: seq<string>, requested: string)
    ensures ResolveResultColumn(columns, requested).Err? <==>
      && (forall i :: 0 <= i < |columns| ==> columns[i] != requested)
      && exists i, j :: 0 <= i < j < |columns| && EndsWith(columns[i], "." + requested) &&
          EndsWith(columns[j], "." + requested)
  {
    var suffix := "." + requested;
    var matching := Suffixed(columns, suffix, |columns|);
    SuffixedRises(columns, suffix, |columns|);
    if |matching| >= 2 {
      assert matching[0] in matching && matching[1] in matching;
    }
    if i, j :| 0 <= i < j < |columns| && EndsWith(columns[i], suffix) && EndsWith(columns[j], suffix) {
      assert i in matching && j in matching;
    }
  }

  // ----- Projection and LIMIT -----

  function AllOf(n: nat): (r: seq<nat>)
    ensures |r| == n && forall i :: 0 <= i < n ==> r[i] == i
  {
    seq(n, i => i)
  }

  /** The positions a select list names in a joined row; an unknown or ambiguous name throws. */
  function JoinedProjection(columns: seq<string>, selected: seq<string>): Result<seq<nat>>
    decreases |selected|
  {
    if selected == ["*"] then Ok(AllOf(|columns|)) else NamedPositions(columns, selected)
  }

  function NamedPositions(columns: seq<string>, selected: seq<string>): Result<seq<nat>> {
    if selected == [] then Ok([])
    else
      var before :- NamedPositions(columns, selected[..|selected| - 1]);
      var index :- ResolveResultColumn(columns, selected[|selected| - 1]);
      if index.None? then Err else Ok(before + [index.value])
  }

  /** The headings of an answer: the names of the columns it shows. */
  predicate Heads(names: seq<string>, columns: seq<string>, projection: seq<nat>) {
    |names| == |projection| &&
    forall k :: 0 <= k < |names| ==> projection[k] < |columns| && names[k] == columns[projection[k]]
  }

  method ResolveJoinedProjection(columns: seq<string>, selected: seq<string>)
      returns (r: Result<seq<nat>>, names: seq<string>)
    ensures r == JoinedProjection(columns, selected)
    ensures r.Ok? ==> Heads(names, columns, r.value)
  {
    hide ResolveResultColumn;
    var projection: seq<nat> := [];
    names := [];
    if |selected| == 1 && selected[0] == "*" {
      for i := 0 to |columns|
        invariant projection == AllOf(i)
      {
        projection := projection + [i];
      }
      return Ok(projection), columns;
    }
    for i := 0 to |selected|
      invariant NamedPositions(columns, selected[..i]) == Ok(projection)
      invariant Heads(names, columns, projection)
    {
      assert selected[..i + 1][..i] == selected[..i];
      var index := FindResultColumn(columns, selected[i]);
      if index.Err? || index.value.None? {
        NamesStop(columns, selected, i + 1);
        return Err, [];
      }
      projection := projection + [index.value.value];
      names := names + [columns[index.value.value]];
    }
    assert selected[..|selected|] == selected;
    return Ok(projection), names;
  }

  lemma {:induction false} NamesStop(columns: seq<string>, selected: seq<string>, i: nat)
    requires i <= |selected| && NamedPositions(columns, selected[..i]).Err?
    ensures NamedPositions(columns, selected).Err?
    decreases |selected|
  {
    hide ResolveResultColumn;
    if i == |selected| {
      assert selected[..i] == selected;
    } else {
      assert selected[..|selected| - 1][..i] == selected[..i];
      NamesStop(columns, selected[..|selected| - 1], i);
    }
  }

  /** `resolveProjection` on one table. */
  function TableProjection(schema: seq<Column>, selected: seq<string>): Result<seq<nat>>
  {
    if selected == ["*"] then Ok(AllOf(|schema|)) else ColumnPositions(schema, selected)
  }

  function ColumnPositions(schema: seq<Column>, selected: seq<string>): Result<seq<nat>> {
    if selected == [] then Ok([])
    else
      var before :- ColumnPositions(schema, selected[..|selected| - 1]);
      var index := ColumnIndex(schema, selected[|selected| - 1]);
      if index.None? then Err else Ok(before + [index.value])
  }

  function SchemaNames(schema: seq<Column>): (names: seq<string>)
    ensures |names| == |schema| && forall i :: 0 <= i < |schema| ==> names[i] == schema[i].name
  {
    seq(|schema|, i requires 0 <= i < |schema| => schema[i].name)
  }

  method ResolveTableProjection(schema: seq<Column>, selected: seq<string>)
      returns (r: Result<seq<nat>>, names: seq<string>)
    ensures r == TableProjection(schema, selected)
    ensures r.Ok? ==> Heads(names, SchemaNames(schema), r.value)
  {
    hide ColumnIndex;
    var projection: seq<nat> := [];
    names := [];
    if |selected| == 1 && selected[0] == "*" {
      for i := 0 to |schema|
        invariant projection == AllOf(i)
        invariant |names| == i && forall k :: 0 <= k < i ==> names[k] == schema[k].name
      {
        projection := projection + [i];
        names := names + [schema[i].name];
      }
      return Ok(projection), names;
    }
    for i := 0 to |selected|
      invariant ColumnPositions(schema, selected[..i]) == Ok(projection)
      invariant Heads(names, SchemaNames(schema), projection)
    {
      assert selected[..i + 1][..i] == selected[..i];
      var index := ColumnIndex(schema, selected[i]);
      if index.None? {
        ColumnsStop(schema, selected, i + 1);
        return Err, [];
      }
      projection := projection + [index.value];
      names := names + [selected[i]];
    }
    assert selected[..|selected|] == selected;
    return Ok(projection), names;
  }

  lemma {:induction false} ColumnsStop(schema: seq<Column>, selected: seq<string>, i: nat)
    requires i <= |selected| && ColumnPositions(schema, selected[..i]).Err?
    ensures ColumnPositions(schema, selected).Err?
    decreases |selected|
  {
    hide ColumnIndex;
    if i == |selected| {
      assert selected[..i] == selected;
    } else {
      assert selected[..|selected| - 1][..i] == selected[..i];
      ColumnsStop(schema, selected[..|selected| - 1], i);
    }
  }

  function ProjectRow(row: Row, projection: seq<nat>): (r: Row)
    ensures |r| == |projection| && forall i :: 0 <= i < |r| ==> r[i] == KeyOf(row, projection[i])
  {
    seq(|projection|, i requires 0 <= i < |projection| => KeyOf(row, projection[i]))
  }

  /** The rows sent back: the limit is looked at after a row was added, so LIMIT 0 still sends one. */
  function Output(rows: seq<Row>, projection: seq<nat>, limit: Option<nat>): (r: seq<Row>)
    ensures var most := if limit.None? then |rows| else if limit.value == 0 then 1 else limit.value;
      |r| == (if |rows| <= most then |rows| else most) && forall i :: 0 <= i < |r| ==>
          r[i] == ProjectRow(rows[i], projection)
  {
    var most := if limit.None? then |rows| else if limit.value == 0 then 1 else limit.value;
    var n := if |rows| <= most then |rows| else most;
    seq(n, i requires 0 <= i < n => ProjectRow(rows[i], projection))
  }

  method ProjectRows(rows: seq<Row>, projection: seq<nat>, limit: Option<nat>) returns (result: seq<Row>)
    ensures result == Output(rows, projection, limit)
  {
    result := [];
    for i := 0 to |rows|
      invariant |result| == i && forall j :: 0 <= j < i ==> result[j] == ProjectRow(rows[j], projection)
      invariant limit.Some? && i > 0 ==> i < limit.value
    {
      var projected: Row := [];
      for j := 0 to |projection|
        invariant projected == ProjectRow(rows[i], projection[..j])
      {
        assert projection[..j + 1] == projection[..j] + [projection[j]];
        projected := projected + [KeyOf(rows[i], projection[j])];
      }
      assert projection[..|projection|] == projection;
      result := result + [projected];
      if limit.Some? && |result| >= limit.value {
        return;
      }
    }
  }

  // ----- ORDER BY -----

  /** What `std::ranges::sort` does with the rows, by a column and in a direction; rows with equal keys in any order. */
  type Sorter = (seq<Row>, nat, bool) -> seq<Row>

  /** No row's key belongs before that of a row in front of it. */
  predicate Arranged(rows: seq<Row>, column: nat, ascending: bool) {
    forall i, j :: 0 <= i < j < |rows| ==>
      !if ascending then ValueLess(KeyOf(rows[j], column), KeyOf(rows[i], column))
      else ValueLess(KeyOf(rows[i], column), KeyOf(rows[j], column))
  }

  ghost predicate Sorts(sort: Sorter) {
    forall rows, column, ascending ::
      var sorted := sort(rows, column, ascending);
      multiset(sorted) == multiset(rows) && Arranged(sorted, column, ascending)
  }

  /** The rows as an ORDER BY clause has them; the column it names is resolved after the rows are there. */
  function Ordered(rows: seq<Row>, orderBy: Option<OrderBy>, column: Option<nat>, sort: Sorter): Result<seq<Row>> {
    if orderBy.None? then Ok(rows)
    else if column.None? then Err
    else Ok(sort(rows, column.value, orderBy.value.ascending))
  }

  function OrderColumn(columns: seq<string>, orderBy: Option<OrderBy>): Result<Option<nat>> {
    if orderBy.None? then Ok(None) else ResolveResultColumn(columns, orderBy.value.column)
  }

  /** The headings and rows sent back. */
  datatype Answer = Answer(names: seq<string>, rows: seq<Row>)

  /** `executeJoinSelect`. */
  ghost predicate JoinAnswers(left: TableV, right: TableV, join: JoinClause, selected: seq<string>,
      where: Option<Predicate>, orderBy: Option<OrderBy>, limit: Option<nat>, sort: Sorter, r: Result<Answer>)
  {
    var columns := Qualified(left.name, left.schema) + Qualified(right.name, right.schema);
    var projection := JoinedProjection(columns, selected);
    var joined := JoinOf(left, right, join, where);
    var order := OrderColumn(columns, orderBy);
    if projection.Err? || joined.Err? || order.Err? || Ordered(joined.value, orderBy, order.value, sort).Err? then
      r == Err
    else
      && r.Ok? && Heads(r.value.names, columns, projection.value)
      && r.value.rows == Output(Ordered(joined.value, orderBy, order.value, sort).value, projection.value, limit)
  }

  method SelectJoin(left: TableV, right: TableV, join: JoinClause, selected: seq<string>, where: Option<Predicate>,
      orderBy: Option<OrderBy>, limit: Option<nat>, sort: Sorter)
    returns (r: Result<Answer>)
    ensures JoinAnswers(left, right, join, selected, where, orderBy, limit, sort, r)
  {
    hide NestedLoop, Qualified, JoinedProjection, Output, Heads, ResolveResultColumn;
    var leftColumn := ResolveTableColumn(left.schema, left.name, join.leftColumn);
    var rightColumn := ResolveTableColumn(right.schema, right.name, join.rightColumn);
    if leftColumn.None? || rightColumn.None? {
      return Err;
    }
    var columns := Qualified(left.name, left.schema) + Qualified(right.name, right.schema);
    var projection, names := ResolveJoinedProjection(columns, selected);
    if projection.Err? {
      return Err;
    }
    var joined :- HashJoin(left.rows, right.rows, leftColumn.value, rightColumn.value, columns, where);
    var order: Result<Option<nat>> := Ok(None);
    if orderBy.Some? {
      order := FindResultColumn(columns, orderBy.value.column);
      if order.Err? {
        return Err;
      }
    }
    var ordered :- Ordered(joined, orderBy, order.value, sort);
    var output := ProjectRows(ordered, projection.value, limit);
    return Ok(Answer(names, output));
  }
}
