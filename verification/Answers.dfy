/** What a SELECT answers, said apart from the loops that compute it. */
module Answers {
  import opened Results
  import opened Values
  import opened Ast
  import opened Lists
  import opened Relations
  import opened AccessPaths
  import opened Joins

  // ----- The rows of a scan -----

  /** A scan fails exactly when the predicate throws on some row. */
  lemma {:induction false} ChosenFailsExactly(schema: seq<Column>, rows: seq<Row>, where: Option<Predicate>)
    ensures Chosen(schema, rows, where).Err? <==>
      exists i :: 0 <= i < |rows| && MatchesWhere(schema, rows[i], where).Err?
  {
    hide MatchesWhere;
    if rows != [] {
      ChosenFailsExactly(schema, rows[..|rows| - 1], where);
      assert forall i :: 0 <= i < |rows| - 1 ==> rows[..|rows| - 1][i] == rows[i];
    }
  }

  /** The positions of the rows a WHERE clause selects. */
  ghost function Choosing(schema: seq<Column>, rows: seq<Row>, where: Option<Predicate>): nat -> bool {
    i => 0 <= i < |rows| && MatchesWhere(schema, rows[i], where) == Ok(true)
  }

  lemma ChoosingPrefix(schema: seq<Column>, rows: seq<Row>, where: Option<Predicate>, n: nat)
    requires n <= |rows|
    ensures forall i: nat :: i < n ==>
        (Choosing(schema, rows[..n], where)(i) <==> Choosing(schema, rows, where)(i))
  {
    hide MatchesWhere;
  }

  lemma ChosenLast(schema: seq<Column>, rows: seq<Row>, where: Option<Predicate>)
    requires rows != [] && Chosen(schema, rows, where).Ok?
    ensures var n := |rows| - 1;
      && Chosen(schema, rows[..n], where).Ok?
      && Chosen(schema, rows, where).value ==
           if MatchesWhere(schema, rows[n], where) == Ok(true) then Chosen(schema, rows[..n], where).value + [rows[n]]
           else Chosen(schema, rows[..n], where).value
  {
    hide MatchesWhere;
    var before := Chosen(schema, rows[..|rows| - 1], where).value;
    assert before + [] == before;
  }

  /** A scan that does not fail returns exactly the rows the predicate holds on, in order. */
  lemma {:induction false} ChosenMeans(schema: seq<Column>, rows: seq<Row>, where: Option<Predicate>)
      returns (ps: seq<nat>)
    requires Chosen(schema, rows, where).Ok?
    ensures Enumerates(ps, |rows|, Choosing(schema, rows, where))
    ensures Takes(Chosen(schema, rows, where).value, rows, ps)
  {
    hide MatchesWhere;
    if rows == [] {
      ps := [];
    } else {
      hide Enumerates, Takes, Chosen;
      var n := |rows| - 1;
      ChosenLast(schema, rows, where);
      var before := ChosenMeans(schema, rows[..n], where);
      ps := if MatchesWhere(schema, rows[n], where) == Ok(true) then before + [n] else before;
      ChoosingPrefix(schema, rows, where, n);
      assert Choosing(schema, rows, where)(n) <==> MatchesWhere(schema, rows[n], where) == Ok(true);
      hide Choosing;
      EnumerateNext(before, n, Choosing(schema, rows[..n], where), Choosing(schema, rows, where));
      TakesNext(Chosen(schema, rows[..n], where).value, rows, before, n, Chosen(schema, rows, where).value, ps);
    }
  }

  // ----- Column names of joined rows -----

  lemma EndsWithIs(name: string, suffix: string)
    ensures EndsWith(name, suffix) <==> exists front :: name == front + suffix
  {
    if EndsWith(name, suffix) {
      assert name == name[..|name| - |suffix|] + suffix;
    }
  }

  /** The column is some table's, under the short name. */
  ghost predicate ShortName(column: string, requested: string) {
    exists front :: column == front + ("." + requested)
  }

  ghost predicate SeveralShort(columns: seq<string>, requested: string) {
    exists i, j :: 0 <= i < j < |columns| && ShortName(columns[i], requested) && ShortName(columns[j], requested)
  }

  /**
   A name resolves in full to its first column, or else as a short name to the only column that has it; it is unknown
   when no column has it either way, and ambiguous when several have it for short and none in full.
   */
  lemma ResolvesExactly(columns: seq<string>, requested: string)
    ensures var r := ResolveResultColumn(columns, requested);
      if requested in columns then
        && r.Ok? && r.value.Some?
        && columns[r.value.value] == requested && requested !in columns[..r.value.value]
      else if forall i :: 0 <= i < |columns| ==> !ShortName(columns[i], requested) then r == Ok(None)
      else if SeveralShort(columns, requested) then r == Err
      else r.Ok? && r.value.Some? && ShortName(columns[r.value.value], requested)
  {
    hide ShortName, EndsWith;
    var suffix := "." + requested;
    forall i | 0 <= i < |columns| ensures ShortName(columns[i], requested) <==> EndsWith(columns[i], suffix) {
      ShortNameIs(columns[i], requested);
    }
    AmbiguousExactly(columns, requested);
    var matching := Suffixed(columns, suffix, |columns|);
    if matching != [] {
      assert matching[0] in matching;
    }
  }

  lemma ShortNameIs(column: string, requested: string)
    ensures ShortName(column, requested) <==> EndsWith(column, "." + requested)
  {
    EndsWithIs(column, "." + requested);
  }

  /** The columns of a joined row: each is its table's name, a point, its own name; left before right. */
  lemma JoinedColumnNames(left: TableV, right: TableV)
    ensures var columns := Qualified(left.name, left.schema) + Qualified(right.name, right.schema);
      && |columns| == |left.schema| + |right.schema|
      && (forall i :: 0 <= i < |left.schema| ==> columns[i] == left.name + "." + left.schema[i].name)
      && forall i :: 0 <= i < |right.schema| ==>
        columns[|left.schema| + i] == right.name + "." + right.schema[i].name
  {
  }

  /** The table's name may stand in front of a join column; otherwise the name is the column's. */
  lemma JoinColumnExactly(schema: seq<Column>, table: string, requested: string)
    ensures ResolveTableColumn(schema, table, table + "." + requested) == ColumnIndex(schema, requested)
    ensures (forall column :: requested != table + "." + column) ==>
        ResolveTableColumn(schema, table, requested) == ColumnIndex(schema, requested)
  {
    var full := table + "." + requested;
    var qualifier := table + ".";
    assert full == qualifier + requested;
    assert full[..|qualifier|] == qualifier && full[|qualifier|..] == requested;
    if |requested| >= |qualifier| && requested[..|qualifier|] == qualifier {
      assert requested == table + "." + requested[|qualifier|..];
    }
  }

  // ----- The predicate on joined rows -----

  /** The name resolves to a column. */
  predicate ResolvesTo(columns: seq<string>, name: string) {
    ResolveResultColumn(columns, name).Ok? && ResolveResultColumn(columns, name).value.Some?
  }

  /** Every name the predicate mentions resolves to a column. */
  predicate JoinedResolves(columns: seq<string>, p: Predicate) {
    match p
    case Comparison(column, _, _) => ResolvesTo(columns, column)
    case And(l, r) => JoinedResolves(columns, l) && JoinedResolves(columns, r)
    case Or(l, r) => JoinedResolves(columns, l) && JoinedResolves(columns, r)
  }

  /** The predicate on a joined row, read as logic. */
  predicate JoinedSatisfies(columns: seq<string>, row: Row, p: Predicate)
    requires JoinedResolves(columns, p) && |row| == |columns|
  {
    match p
    case Comparison(column, op, value) =>
      Compare(row[ResolveResultColumn(columns, column).value.value], op, value)
    case And(l, r) => JoinedSatisfies(columns, row, l) && JoinedSatisfies(columns, row, r)
    case Or(l, r) => JoinedSatisfies(columns, row, l) || JoinedSatisfies(columns, row, r)
  }

  /** The WHERE clause, if any, holds on a joined row. */
  predicate JoinedHolds(columns: seq<string>, row: Row, where: Option<Predicate>)
    requires where.Some? ==> JoinedResolves(columns, where.value)
    requires |row| == |columns|
  {
    where.Some? ==> JoinedSatisfies(columns, row, where.value)
  }

  lemma {:induction false} JoinedIsLogic(columns: seq<string>, row: Row, p: Predicate)
    requires JoinedResolves(columns, p) && |row| == |columns|
    ensures MatchesJoined(columns, row, p) == Ok(JoinedSatisfies(columns, row, p))
  {
    hide ResolveResultColumn, Compare;
    if !p.Comparison? {
      JoinedIsLogic(columns, row, p.left);
      JoinedIsLogic(columns, row, p.right);
    }
  }

  /** Evaluating a condition on a joined row: AND holds when both sides do, OR fails when both sides do. */
  lemma JoinedConditionsEvaluate(columns: seq<string>, row: Row, l: Predicate, r: Predicate, c: Predicate)
    requires |row| == |columns| && c.Comparison? && ResolvesTo(columns, c.column)
    ensures MatchesJoined(columns, row, And(l, r)) == Ok(true) <==>
        MatchesJoined(columns, row, l) == Ok(true) && MatchesJoined(columns, row, r) == Ok(true)
    ensures MatchesJoined(columns, row, Or(l, r)) == Ok(false) <==>
        MatchesJoined(columns, row, l) == Ok(false) && MatchesJoined(columns, row, r) == Ok(false)
    ensures MatchesJoined(columns, row, c) ==
        Ok(Compare(row[ResolveResultColumn(columns, c.column).value.value], c.op, c.value))
  {
    hide ResolveResultColumn, Compare;
  }

  // ----- The rows of a join -----

  /** The two rows have equal keys, so their pair is tested. */
  predicate Meet(left: Row, right: Row, leftColumn: nat, rightColumn: nat) {
    leftColumn < |left| && rightColumn < |right| && left[leftColumn] == right[rightColumn]
  }

  /** The pair of rows is in the answer. */
  predicate Joined(left: Row, right: Row, leftColumn: nat, rightColumn: nat, columns: seq<string>,
      where: Option<Predicate>) {
    Meet(left, right, leftColumn, rightColumn) && JoinedMatches(columns, left + right, where) == Ok(true)
  }

  predicate Wide(rows: seq<Row>, column: nat) {
    forall i :: 0 <= i < |rows| ==> column < |rows[i]|
  }

  lemma {:induction false} ProbeFailsExactly(left: Row, rights: seq<Row>, leftColumn: nat, rightColumn: nat,
      columns: seq<string>, where: Option<Predicate>)
    requires leftColumn < |left| && Wide(rights, rightColumn)
    ensures Probe(left, rights, leftColumn, rightColumn, columns, where).Err? <==>
      exists j :: 0 <= j < |rights| && Meet(left, rights[j], leftColumn, rightColumn) &&
        JoinedMatches(columns, left + rights[j], where).Err?
  {
    hide JoinedMatches;
    if rights != [] {
      var n := |rights| - 1;
      ProbeFailsExactly(left, rights[..n], leftColumn, rightColumn, columns, where);
      assert forall j :: 0 <= j < n ==> rights[..n][j] == rights[j];
    }
  }

  lemma ProbeLast(left: Row, rights: seq<Row>, leftColumn: nat, rightColumn: nat, columns: seq<string>,
      where: Option<Predicate>)
    requires rights != [] && leftColumn < |left| && Wide(rights, rightColumn)
    requires Probe(left, rights, leftColumn, rightColumn, columns, where).Ok?
    ensures var n := |rights| - 1;
      var before := Probe(left, rights[..n], leftColumn, rightColumn, columns, where);
      && before.Ok?
      && Probe(left, rights, leftColumn, rightColumn, columns, where).value ==
           if Joined(left, rights[n], leftColumn, rightColumn, columns, where) then before.value + [left + rights[n]]
           else before.value
  {
    hide JoinedMatches;
    var before := Probe(left, rights[..|rights| - 1], leftColumn, rightColumn, columns, where).value;
    assert before + [] == before;
  }

  /** The left row joined to each right one. */
  function Beside(left: Row, rights: seq<Row>): (rows: seq<Row>)
    ensures |rows| == |rights| && forall j :: 0 <= j < |rights| ==> rows[j] == left + rights[j]
  {
    seq(|rights|, j requires 0 <= j < |rights| => left + rights[j])
  }

  lemma BesidePrefix(left: Row, rights: seq<Row>, column: nat, n: nat)
    requires n <= |rights| && Wide(rights, column)
    ensures Beside(left, rights)[..n] == Beside(left, rights[..n]) && Wide(rights[..n], column)
  {
  }

  /** The positions of the right rows that answer one left row. */
  ghost function Probing(left: Row, rights: seq<Row>, leftColumn: nat, rightColumn: nat, columns: seq<string>,
      where: Option<Predicate>): nat -> bool {
    j => 0 <= j < |rights| && Joined(left, rights[j], leftColumn, rightColumn, columns, where)
  }

  lemma ProbingPrefix(left: Row, rights: seq<Row>, leftColumn: nat, rightColumn: nat, columns: seq<string>,
      where: Option<Predicate>, n: nat)
    requires n <= |rights|
    ensures forall j: nat :: j < n ==>
      (Probing(left, rights[..n], leftColumn, rightColumn, columns, where)(j) <==>
       Probing(left, rights, leftColumn, rightColumn, columns, where)(j))
  {
    hide Joined;
  }

  lemma {:induction false} ProbeMeans(left: Row, rights: seq<Row>, leftColumn: nat, rightColumn: nat,
      columns: seq<string>, where: Option<Predicate>) returns (js: seq<nat>)
    requires leftColumn < |left| && Wide(rights, rightColumn)
    requires Probe(left, rights, leftColumn, rightColumn, columns, where).Ok?
    ensures Enumerates(js, |rights|, Probing(left, rights, leftColumn, rightColumn, columns, where))
    ensures Takes(Probe(left, rights, leftColumn, rightColumn, columns, where).value, Beside(left, rights), js)
  {
    hide JoinedMatches, Joined;
    if rights == [] {
      js := [];
    } else {
      hide Enumerates, Takes, Probe, Wide, Beside;
      var n := |rights| - 1;
      BesidePrefix(left, rights, rightColumn, n);
      ProbeLast(left, rights, leftColumn, rightColumn, columns, where);
      var before := ProbeMeans(left, rights[..n], leftColumn, rightColumn, columns, where);
      js := if Joined(left, rights[n], leftColumn, rightColumn, columns, where) then before + [n] else before;
      var wanted := Probing(left, rights, leftColumn, rightColumn, columns, where);
      ProbingPrefix(left, rights, leftColumn, rightColumn, columns, where, n);
      assert wanted(n) <==> Joined(left, rights[n], leftColumn, rightColumn, columns, where);
      hide Probing;
      EnumerateNext(before, n, Probing(left, rights[..n], leftColumn, rightColumn, columns, where), wanted);
      TakesNext(Probe(left, rights[..n], leftColumn, rightColumn, columns, where).value, Beside(left, rights), before,
          n, Probe(left, rights, leftColumn, rightColumn, columns, where).value, js);
    }
  }

  /** A join fails exactly when the predicate throws on some pair of rows with equal keys. */
  lemma {:induction false} JoinFailsExactly(lefts: seq<Row>, rights: seq<Row>, leftColumn: nat, rightColumn: nat,
      columns: seq<string>, where: Option<Predicate>)
    requires Wide(lefts, leftColumn) && Wide(rights, rightColumn)
    ensures NestedLoop(lefts, rights, leftColumn, rightColumn, columns, where).Err? <==>
      exists i, j :: 0 <= i < |lefts| && 0 <= j < |rights| && Meet(lefts[i], rights[j], leftColumn, rightColumn) &&
        JoinedMatches(columns, lefts[i] + rights[j], where).Err?
  {
    hide JoinedMatches, Probe, Meet;
    if lefts != [] {
      var n := |lefts| - 1;
      JoinFailsExactly(lefts[..n], rights, leftColumn, rightColumn, columns, where);
      ProbeFailsExactly(lefts[n], rights, leftColumn, rightColumn, columns, where);
      assert forall i :: 0 <= i < n ==> lefts[..n][i] == lefts[i];
    }
  }

  /** The pair comes earlier: by its left row, and for the same left row by its right one. */
  predicate Earlier(p: (nat, nat), q: (nat, nat)) {
    p.0 < q.0 || (p.0 == q.0 && p.1 < q.1)
  }

  ghost predicate ListsPairs(ps: seq<(nat, nat)>, n: nat, m: nat, wanted: (nat, nat) -> bool) {
    && (forall k :: 0 <= k < |ps| ==> ps[k].0 < n && ps[k].1 < m)
    && (forall k, l :: 0 <= k < l < |ps| ==> Earlier(ps[k], ps[l]))
    && forall i: nat, j: nat :: i < n && j < m ==> ((i, j) in ps <==> wanted(i, j))
  }

  function PairsOf(i: nat, js: seq<nat>): (ps: seq<(nat, nat)>)
    ensures |ps| == |js| && forall k :: 0 <= k < |js| ==> ps[k] == (i, js[k])
    ensures forall j: nat :: (i, j) in ps <==> j in js
  {
    var ps := seq(|js|, k requires 0 <= k < |js| => (i, js[k]));
    assert forall j: nat :: j in js ==> (i, j) in ps by {
      forall j: nat | j in js ensures (i, j) in ps {
        var k :| 0 <= k < |js| && js[k] == j;
        assert ps[k] == (i, j);
      }
    }
    ps
  }

  lemma PairsExtend(before: seq<(nat, nat)>, n: nat, m: nat, js: seq<nat>, wanted: (nat, nat) -> bool,
      last: nat -> bool)
    requires ListsPairs(before, n, m, wanted) && Enumerates(js, m, last)
    requires forall j: nat :: j < m ==> (wanted(n, j) <==> last(j))
    ensures ListsPairs(before + PairsOf(n, js), n + 1, m, wanted)
  {
    var more := PairsOf(n, js);
    forall i: nat, j: nat | i < n + 1 && j < m ensures (i, j) in before + more <==> wanted(i, j) {
      if i == n {
        assert (i, j) !in before;
      } else {
        assert (i, j) !in more;
      }
    }
  }

  lemma SamePairs(ps: seq<(nat, nat)>, n: nat, m: nat, a: (nat, nat) -> bool, b: (nat, nat) -> bool)
    requires ListsPairs(ps, n, m, a) && forall i: nat, j: nat :: i < n && j < m ==> (a(i, j) <==> b(i, j))
    ensures ListsPairs(ps, n, m, b)
  {
  }

  /** The pairs of positions whose rows are in the answer. */
  ghost function Answering(lefts: seq<Row>, rights: seq<Row>, leftColumn: nat, rightColumn: nat, columns: seq<string>,
      where: Option<Predicate>): (nat, nat) -> bool {
    (i: nat, j: nat) =>
      i < |lefts| && j < |rights| && Joined(lefts[i], rights[j], leftColumn, rightColumn, columns, where)
  }

  /** Each row is a left row followed by a right one, at the positions listed. */
  predicate Assembled(rows: seq<Row>, ps: seq<(nat, nat)>, lefts: seq<Row>, rights: seq<Row>) {
    |rows| == |ps| && forall k :: 0 <= k < |ps| ==>
      ps[k].0 < |lefts| && ps[k].1 < |rights| && rows[k] == lefts[ps[k].0] + rights[ps[k].1]
  }

  lemma AssembledExtend(rows: seq<Row>, ps: seq<(nat, nat)>, lefts: seq<Row>, rights: seq<Row>, n: nat,
      found: seq<Row>, js: seq<nat>)
    requires n < |lefts| && Assembled(rows, ps, lefts[..n], rights) && |found| == |js|
    requires forall k :: 0 <= k < |js| ==> js[k] < |rights| && found[k] == lefts[n] + rights[js[k]]
    ensures Assembled(rows + found, ps + PairsOf(n, js), lefts, rights)
  {
  }

  /**
   A join that does not fail returns exactly the left rows joined to the right rows with an equal key on which the
   predicate holds, by left position and then by right position.
   */
  lemma {:induction false} JoinMeans(lefts: seq<Row>, rights: seq<Row>, leftColumn: nat, rightColumn: nat,
      columns: seq<string>, where: Option<Predicate>) returns (ps: seq<(nat, nat)>)
    requires Wide(lefts, leftColumn) && Wide(rights, rightColumn)
    requires NestedLoop(lefts, rights, leftColumn, rightColumn, columns, where).Ok?
    ensures ListsPairs(ps, |lefts|, |rights|, Answering(lefts, rights, leftColumn, rightColumn, columns, where))
    ensures Assembled(NestedLoop(lefts, rights, leftColumn, rightColumn, columns, where).value, ps, lefts, rights)
  {
    hide JoinedMatches, Probe, Joined, Earlier;
    if lefts == [] {
      ps := [];
    } else {
      hide Enumerates, ListsPairs, Assembled;
      var n := |lefts| - 1;
      var before := JoinMeans(lefts[..n], rights, leftColumn, rightColumn, columns, where);
      var js := ProbeMeans(lefts[n], rights, leftColumn, rightColumn, columns, where);
      ps := before + PairsOf(n, js);
      AssembledExtend(NestedLoop(lefts[..n], rights, leftColumn, rightColumn, columns, where).value, before, lefts,
          rights, n, Probe(lefts[n], rights, leftColumn, rightColumn, columns, where).value, js);
      hide PairsOf;
      var all := Answering(lefts, rights, leftColumn, rightColumn, columns, where);
      SamePairs(before, n, |rights|, Answering(lefts[..n], rights, leftColumn, rightColumn, columns, where), all);
      PairsExtend(before, n, |rights|, js, all,
          Probing(lefts[n], rights, leftColumn, rightColumn, columns, where));
    }
  }

  /** With names that resolve the join never fails, and a pair of rows is in the answer as logic says. */
  lemma ResolvedJoin(lefts: seq<Row>, rights: seq<Row>, leftColumn: nat, rightColumn: nat, columns: seq<string>,
      where: Option<Predicate>)
    requires Wide(lefts, leftColumn) && Wide(rights, rightColumn)
    requires forall i, j :: 0 <= i < |lefts| && 0 <= j < |rights| ==> |lefts[i] + rights[j]| == |columns|
    requires where.Some? ==> JoinedResolves(columns, where.value)
    ensures NestedLoop(lefts, rights, leftColumn, rightColumn, columns, where).Ok?
    ensures forall i, j :: 0 <= i < |lefts| && 0 <= j < |rights| ==>
      (Joined(lefts[i], rights[j], leftColumn, rightColumn, columns, where) <==>
        lefts[i][leftColumn] == rights[j][rightColumn] &&
        (where.Some? ==> JoinedSatisfies(columns, lefts[i] + rights[j], where.value)))
  {
    hide MatchesJoined, NestedLoop, JoinedResolves, JoinedSatisfies;
    JoinFailsExactly(lefts, rights, leftColumn, rightColumn, columns, where);
    forall i, j | 0 <= i < |lefts| && 0 <= j < |rights|
      ensures JoinedMatches(columns, lefts[i] + rights[j], where) ==
        Ok(where.Some? ==> JoinedSatisfies(columns, lefts[i] + rights[j], where.value))
    {
      if where.Some? {
        JoinedIsLogic(columns, lefts[i] + rights[j], where.value);
      }
    }
  }

  /**
   Two tables whose join columns exist, under a condition whose names resolve: the answer is the left rows joined to the
   right rows with an equal value in the join columns for which the condition holds, by left position and then by right.
   */
  lemma JoinOfMeans(left: TableV, right: TableV, join: JoinClause, where: Option<Predicate>, l: nat, r: nat)
      returns (ps: seq<(nat, nat)>)
    requires ValidRows(left.schema, left.rows) && ValidRows(right.schema, right.rows)
    requires ResolveTableColumn(left.schema, left.name, join.leftColumn) == Some(l)
    requires ResolveTableColumn(right.schema, right.name, join.rightColumn) == Some(r)
    requires var columns := Qualified(left.name, left.schema) + Qualified(right.name, right.schema);
      where.Some? ==> JoinedResolves(columns, where.value)
    ensures var columns := Qualified(left.name, left.schema) + Qualified(right.name, right.schema);
      var joined := JoinOf(left, right, join, where);
      && joined.Ok? && Assembled(joined.value, ps, left.rows, right.rows)
      && ListsPairs(ps, |left.rows|, |right.rows|, (i: nat, j: nat) =>
           && i < |left.rows| && j < |right.rows| && l < |left.rows[i]| && r < |right.rows[j]|
           && left.rows[i][l] == right.rows[j][r]
           && |left.rows[i] + right.rows[j]| == |columns|
           && JoinedHolds(columns, left.rows[i] + right.rows[j], where))
  {
    hide JoinedResolves, JoinedSatisfies, NestedLoop, ResolveTableColumn, ListsPairs, JoinedMatches, Assembled;
    var columns := Qualified(left.name, left.schema) + Qualified(right.name, right.schema);
    ResolvedJoin(left.rows, right.rows, l, r, columns, where);
    ps := JoinMeans(left.rows, right.rows, l, r, columns, where);
    SamePairs(ps, |left.rows|, |right.rows|, Answering(left.rows, right.rows, l, r, columns, where),
        (i: nat, j: nat) =>
          && i < |left.rows| && j < |right.rows| && l < |left.rows[i]| && r < |right.rows[j]|
          && left.rows[i][l] == right.rows[j][r]
          && |left.rows[i] + right.rows[j]| == |columns|
          && JoinedHolds(columns, left.rows[i] + right.rows[j], where));
  }

  // ----- The select list -----

  predicate KnownColumn(schema: seq<Column>, name: string) {
    exists i :: 0 <= i < |schema| && schema[i].name == name
  }

  /**
   The select list of one table: `*` is every column in order; otherwise each name is answered by the first column of
   that name, in the order of the list, and the list fails exactly when some name is no column.
   */
  lemma {:induction false} ColumnPositionsMean(schema: seq<Column>, selected: seq<string>)
    ensures var p := ColumnPositions(schema, selected);
      && (p.Err? <==> exists k :: 0 <= k < |selected| && !KnownColumn(schema, selected[k]))
      && (p.Ok? ==> |p.value| == |selected| && forall k :: 0 <= k < |selected| ==>
            p.value[k] < |schema| && schema[p.value[k]].name == selected[k] &&
            forall j :: 0 <= j < p.value[k] ==> schema[j].name != selected[k])
  {
    hide ColumnIndex;
    if selected != [] {
      var n := |selected| - 1;
      ColumnPositionsMean(schema, selected[..n]);
      assert forall k :: 0 <= k < n ==> selected[..n][k] == selected[k];
      assert ColumnIndex(schema, selected[n]).Some? <==> KnownColumn(schema, selected[n]);
    }
  }

  lemma TableProjectionMeans(schema: seq<Column>, selected: seq<string>)
    ensures var p := TableProjection(schema, selected);
      if selected == ["*"] then p.Ok? && |p.value| == |schema| && forall k :: 0 <= k < |schema| ==> p.value[k] == k
      else
        && (p.Err? <==> exists k :: 0 <= k < |selected| && !KnownColumn(schema, selected[k]))
        && (p.Ok? ==> |p.value| == |selected| && forall k :: 0 <= k < |selected| ==>
              p.value[k] < |schema| && schema[p.value[k]].name == selected[k] &&
              forall j :: 0 <= j < p.value[k] ==> schema[j].name != selected[k])
  {
    ColumnPositionsMean(schema, selected);
  }

  /** The select list of a join: as on one table, with names resolved in full or for short. */
  lemma {:induction false} NamedPositionsMean(columns: seq<string>, selected: seq<string>)
    ensures var p := NamedPositions(columns, selected);
      && (p.Err? <==> exists k :: 0 <= k < |selected| && !ResolvesTo(columns, selected[k]))
      && (p.Ok? ==> |p.value| == |selected| && forall k :: 0 <= k < |selected| ==>
            ResolveResultColumn(columns, selected[k]) == Ok(Some(p.value[k])))
  {
    hide ResolveResultColumn;
    if selected != [] {
      var n := |selected| - 1;
      NamedPositionsMean(columns, selected[..n]);
      assert forall k :: 0 <= k < n ==> selected[..n][k] == selected[k];
    }
  }

  lemma JoinedProjectionMeans(columns: seq<string>, selected: seq<string>)
    ensures var p := JoinedProjection(columns, selected);
      if selected == ["*"] then p.Ok? && |p.value| == |columns| && forall k :: 0 <= k < |columns| ==> p.value[k] == k
      else
        && (p.Err? <==> exists k :: 0 <= k < |selected| && !ResolvesTo(columns, selected[k]))
        && (p.Ok? ==> |p.value| == |selected| && forall k :: 0 <= k < |selected| ==>
              ResolveResultColumn(columns, selected[k]) == Ok(Some(p.value[k])))
  {
    NamedPositionsMean(columns, selected);
  }

  // ----- ORDER BY and LIMIT -----

  /** In ascending order keys never go down, in descending order never up. */
  lemma ArrangedExactly(rows: seq<Row>, column: nat)
    requires Wide(rows, column)
    ensures Arranged(rows, column, true) <==> forall i, j :: 0 <= i < j < |rows| ==>
        rows[i][column] == rows[j][column] || Compare(rows[i][column], LessThan, rows[j][column])
    ensures Arranged(rows, column, false) <==> forall i, j :: 0 <= i < j < |rows| ==>
        rows[i][column] == rows[j][column] || Compare(rows[i][column], GreaterThan, rows[j][column])
  {
    hide ValueLess;
    ValueOrder();
  }

  /** ORDER BY loses and invents no row. */
  lemma OrderedKeepsRows(rows: seq<Row>, orderBy: Option<OrderBy>, column: Option<nat>, sort: Sorter)
    requires Sorts(sort)
    ensures var ordered := Ordered(rows, orderBy, column, sort);
      && (ordered.Err? <==> orderBy.Some? && column.None?)
      && (orderBy.None? ==> ordered == Ok(rows))
      && (orderBy.Some? && column.Some? ==>
            multiset(ordered.value) == multiset(rows) &&
            Arranged(ordered.value, column.value, orderBy.value.ascending))
  {
    hide Arranged;
  }

  /** What is sent back: of each row the selected cells in the order of the list; all rows, or the first few. */
  lemma OutputMeans(rows: seq<Row>, projection: seq<nat>, limit: Option<nat>)
    requires forall i, k :: 0 <= i < |rows| && 0 <= k < |projection| ==> projection[k] < |rows[i]|
    ensures var out := Output(rows, projection, limit);
      && |out| <= |rows|
      && (limit.None? || limit.value >= |rows| ==> |out| == |rows|)
      && (limit.Some? && 0 < limit.value < |rows| ==> |out| == limit.value)
      && (limit == Some(0) && rows != [] ==> |out| == 1)
      && forall i :: 0 <= i < |out| ==>
        |out[i]| == |projection| && forall k :: 0 <= k < |projection| ==> out[i][k] == rows[i][projection[k]]
  {
  }
}
