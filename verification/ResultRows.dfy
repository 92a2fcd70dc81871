// What a plaintext result is, read off the statement: which stored rows it shows, under
// which names, with which values, in which order.

module ResultRows {
  import opened Common
  import opened Catalog
  import opened Ast
  import opened Plain
  import opened Planner
  import opened Decoder
  import opened SortLimit
  import opened TableQuery
  import opened Pipeline
  import opened JoinPlain
  import opened Meaning

  // ---- Names ----

  predicate ListsName(names: seq<string>, name: string) { exists k :: 0 <= k < |names| && names[k] == name }

  predicate OrdersBy(orderBy: seq<OrderByColumn>, name: string) {
    exists j :: 0 <= j < |orderBy| && orderBy[j].columnName == name
  }

  predicate OwnsName(schema: TableSchema, name: string) {
    exists k :: 0 <= k < |schema.columns| && schema.columns[k].name == name
  }

  /** The names a statement asks for: those it lists, or every column of its table for
      SELECT *, and those it orders by. */
  predicate AskedFor(stmt: SelectStatement, schema: TableSchema, name: string) {
    || ListsName(stmt.projections, name)
    || (stmt.projections == [] && OwnsName(schema, name))
    || OrdersBy(stmt.orderBy, name)
  }

  lemma ProjectedExactly(stmt: SelectStatement, schema: TableSchema, name: string)
    ensures name in Projected(stmt, schema) <==> AskedFor(stmt, schema, name)
  {
    var requested := Requested(stmt, schema);
    OrderColumnsListed(requested, stmt.orderBy, |stmt.orderBy|);
    assert name in requested <==> exists k :: 0 <= k < |requested| && requested[k] == name;
    if stmt.projections == [] {
      assert forall k :: 0 <= k < |schema.columns| ==> requested[k] == schema.columns[k].name;
      assert name in requested <==> OwnsName(schema, name);
    }
  }

  // ---- One table ----

  /** A result row has exactly the names asked for, strings apart from integers, each
      with the value of the stored row. */
  ghost predicate Shows(stmt: SelectStatement, schema: TableSchema, row: Row, r: ResultRow) {
    && (forall name :: name in r.values || name in r.stringValues <==> AskedFor(stmt, schema, name))
    && (forall name :: name in r.values ==> r.values[name] == Number(row, name))
    && (forall name :: name in r.stringValues ==> r.stringValues[name] == Text(row, name))
    && (forall name :: name in r.values ==> schema.HasColumn(name) && schema.Column(name).kind != STRING)
    && (forall name :: name in r.stringValues ==> schema.HasColumn(name) && schema.Column(name).kind == STRING)
  }

  lemma ProjectionShows(stmt: SelectStatement, schema: TableSchema, row: Row)
    requires Projectable(schema, Projected(stmt, schema))
    ensures Shows(stmt, schema, row, ProjectRow(schema, Projected(stmt, schema), row))
  {
    var names := Projected(stmt, schema);
    var r := ProjectRow(schema, names, row);
    forall name
      ensures name in r.values || name in r.stringValues <==> AskedFor(stmt, schema, name)
    {
      ProjectedExactly(stmt, schema, name);
    }
    forall name | name in names
      ensures schema.HasColumn(name)
    {
      var k :| 0 <= k < |names| && names[k] == name;
      assert IntColumn(schema, names[k]) || StringColumnOf(schema, names[k]);
    }
  }

  predicate Satisfies(where: Option<Expr>, row: Row) {
    where.None? || Means(where.value, name => Number(row, name), name => Text(row, name))
  }

  lemma KeepsExactly(where: Option<Expr>, schema: TableSchema, row: Row)
    requires where.Some? ==> IsPredicate(where.value, schema)
    ensures Keeps(where, schema, row) <==> Satisfies(where, row)
  {
    if where.Some? {
      EvalMeans(where.value, schema, row, name => Number(row, name), name => Text(row, name));
    }
  }

  predicate Increasing(picked: seq<nat>) { forall a, b :: 0 <= a < b < |picked| ==> picked[a] < picked[b] }

  /** The indices of the rows among the first k that satisfy WHERE, in order. */
  ghost predicate Picks(where: Option<Expr>, rows: seq<Row>, k: nat, picked: seq<nat>)
    requires k <= |rows|
  {
    Increasing(picked) && forall i :: i in picked <==> 0 <= i < k && Satisfies(where, rows[i])
  }

  lemma PicksNone(where: Option<Expr>, rows: seq<Row>) returns (picked: seq<nat>)
    ensures picked == [] && Picks(where, rows, 0, picked)
  {
    picked := [];
  }

  lemma PicksNext(where: Option<Expr>, rows: seq<Row>, k: nat, picked: seq<nat>)
    requires k < |rows| && Picks(where, rows, k, picked)
    ensures Satisfies(where, rows[k]) ==> Picks(where, rows, k + 1, picked + [k])
    ensures !Satisfies(where, rows[k]) ==> Picks(where, rows, k + 1, picked)
  {
    forall a, b | 0 <= a < b < |picked + [k]|
      ensures (picked + [k])[a] < (picked + [k])[b]
    {
      assert picked[a] in picked;
    }
  }

  lemma KeptNext(where: Option<Expr>, schema: TableSchema, rows: seq<Row>, k: nat, picked: seq<nat>)
    requires where.Some? ==> IsPredicate(where.value, schema)
    requires k < |rows| && Picks(where, rows, k, picked)
    ensures Picks(where, rows, k + 1, if Keeps(where, schema, rows[k]) then picked + [k] else picked)
  {
    PicksNext(where, rows, k, picked);
    KeepsExactly(where, schema, rows[k]);
  }

  /** The projections of the picked rows. */
  ghost predicate ShowsPicked(schema: TableSchema, names: seq<string>, rows: seq<Row>, picked: seq<nat>,
                              shown: seq<ResultRow>)
    requires Projectable(schema, names)
  {
    && |shown| == |picked|
    && forall j :: 0 <= j < |picked| ==>
         picked[j] < |rows| && shown[j] == ProjectRow(schema, names, rows[picked[j]])
  }

  lemma ShowsNext(schema: TableSchema, names: seq<string>, rows: seq<Row>, picked: seq<nat>, shown: seq<ResultRow>,
                  k: nat)
    requires Projectable(schema, names) && k < |rows| && ShowsPicked(schema, names, rows, picked, shown)
    ensures ShowsPicked(schema, names, rows, picked + [k], shown + [ProjectRow(schema, names, rows[k])])
  {
  }

  lemma {:induction false} RowsPicked(where: Option<Expr>, schema: TableSchema, names: seq<string>, rows: seq<Row>,
                                      k: nat) returns (picked: seq<nat>)
    requires where.Some? ==> IsPredicate(where.value, schema)
    requires Projectable(schema, names) && k <= |rows|
    ensures Picks(where, rows, k, picked)
    ensures ShowsPicked(schema, names, rows, picked, PlainRows(where, schema, names, rows, k))
  {
    if k == 0 {
      picked := PicksNone(where, rows);
    } else {
      var earlier := RowsPicked(where, schema, names, rows, k - 1);
      picked := PickedNext(where, schema, names, rows, k - 1, earlier, PlainRows(where, schema, names, rows, k - 1),
                           PlainRows(where, schema, names, rows, k));
    }
  }

  lemma PickedNext(where: Option<Expr>, schema: TableSchema, names: seq<string>, rows: seq<Row>, k: nat,
                   picked: seq<nat>, shown: seq<ResultRow>, longer: seq<ResultRow>) returns (next: seq<nat>)
    requires where.Some? ==> IsPredicate(where.value, schema)
    requires Projectable(schema, names) && k < |rows|
    requires Picks(where, rows, k, picked) && ShowsPicked(schema, names, rows, picked, shown)
    requires longer == if Keeps(where, schema, rows[k]) then shown + [ProjectRow(schema, names, rows[k])] else shown
    ensures Picks(where, rows, k + 1, next) && ShowsPicked(schema, names, rows, next, longer)
  {
    KeptNext(where, schema, rows, k, picked);
    ShowsNext(schema, names, rows, picked, shown, k);
    next := if Keeps(where, schema, rows[k]) then picked + [k] else picked;
  }

  lemma {:induction false} PlainRowsKeys(where: Option<Expr>, schema: TableSchema, names: seq<string>, rows: seq<Row>,
                                         k: nat)
    requires where.Some? ==> IsPredicate(where.value, schema)
    requires Projectable(schema, names) && k <= |rows|
    ensures SameKeys(PlainRows(where, schema, names, rows, k), IntNames(schema, names))
  {
    if k > 0 {
      PlainRowsKeys(where, schema, names, rows, k - 1);
      assert ProjectRow(schema, names, rows[k - 1]).values.Keys == IntNames(schema, names);
    }
  }

  /** The rows in the order of the list and cut at the limit. */
  ghost predicate Ordered(rows: seq<ResultRow>, orderBy: seq<OrderByColumn>, limit: int, result: seq<ResultRow>) {
    && InColumnOrder(orderBy, result)
    && exists keys, sorted :: SameKeys(rows, keys) && IsTop(orderBy, keys, rows, limit, sorted, result)
  }

  lemma SortedInOrder(rows: seq<ResultRow>, orderBy: seq<OrderByColumn>, keys: set<string>, limit: int)
    requires SameKeys(rows, keys)
    ensures Ordered(rows, orderBy, limit, SortAndLimit(rows, Present(orderBy, keys), limit))
  {
    SameKeysCarry(orderBy, rows, keys);
    OrderByStringsIgnored(orderBy, keys, rows, limit);
    TopRows(orderBy, keys, rows, limit);
  }

  /** The result of a query over one table: the stored rows that satisfy WHERE, each
      once and under the names asked for, ordered by the ORDER BY list - rows that agree
      on its first columns by the next one, rows that agree on all of them as stored -
      and cut at LIMIT. */
  lemma ResultExactly(stmt: SelectStatement, schema: TableSchema, rows: seq<Row>)
    returns (picked: seq<nat>, shown: seq<ResultRow>)
    requires stmt.whereClause.Some? ==> IsPredicate(stmt.whereClause.value, schema)
    requires Projectable(schema, Projected(stmt, schema))
    ensures Picks(stmt.whereClause, rows, |rows|, picked) && |shown| == |picked|
    ensures forall j :: 0 <= j < |picked| ==> picked[j] < |rows| && Shows(stmt, schema, rows[picked[j]], shown[j])
    ensures Ordered(shown, stmt.orderBy, stmt.limitCount, PlainResult(stmt, schema, rows))
  {
    var names := Projected(stmt, schema);
    picked := RowsPicked(stmt.whereClause, schema, names, rows, |rows|);
    shown := PlainRows(stmt.whereClause, schema, names, rows, |rows|);
    forall j | 0 <= j < |picked|
      ensures Shows(stmt, schema, rows[picked[j]], shown[j])
    {
      ProjectionShows(stmt, schema, rows[picked[j]]);
    }
    PlainRowsKeys(stmt.whereClause, schema, names, rows, |rows|);
    SortedInOrder(shown, stmt.orderBy, IntNames(schema, names), stmt.limitCount);
  }

  // ---- Joins ----

  /** The same for a pair: each name reads the row its table contributes. */
  ghost predicate ShowsPair(tables: TableMap, stmt: SelectStatement, l: Row, r: Row, result: ResultRow)
    requires IsJoin(tables, stmt)
  {
    && (forall name :: name in result.values || name in result.stringValues <==>
                         AskedFor(stmt, tables[stmt.tableName], name))
    && (forall name :: name in result.values ==>
                         result.values[name] == PairNumber(tables, stmt, l, r, name))
    && (forall name :: name in result.stringValues ==>
                         result.stringValues[name] == PairText(tables, stmt, l, r, name))
    && (forall name :: name in result.values ==> !IsString(tables, stmt, name))
    && (forall name :: name in result.stringValues ==> IsString(tables, stmt, name))
  }

  lemma NamedReads(tables: TableMap, stmt: SelectStatement, l: Row, r: Row, name: string)
    requires IsJoin(tables, stmt)
    ensures IntNamed(tables, stmt, name, l, r) == PairNumber(tables, stmt, l, r, name)
    ensures StringNamed(tables, stmt, name, l, r) == PairText(tables, stmt, l, r, name)
  {
  }

  lemma PairValues(tables: TableMap, stmt: SelectStatement, names: seq<string>, l: Row, r: Row)
    requires IsJoin(tables, stmt)
    ensures
      var result := PairResult(tables, stmt, names, l, r);
      && (forall name :: name in result.values ==> result.values[name] == PairNumber(tables, stmt, l, r, name))
      && (forall name :: name in result.stringValues ==>
                           result.stringValues[name] == PairText(tables, stmt, l, r, name))
  {
    forall name
      ensures IntNamed(tables, stmt, name, l, r) == PairNumber(tables, stmt, l, r, name)
      ensures StringNamed(tables, stmt, name, l, r) == PairText(tables, stmt, l, r, name)
    {
      NamedReads(tables, stmt, l, r, name);
    }
  }

  lemma PairShows(tables: TableMap, stmt: SelectStatement, l: Row, r: Row)
    requires IsJoin(tables, stmt)
    ensures ShowsPair(tables, stmt, l, r, PairResult(tables, stmt, Projected(stmt, tables[stmt.tableName]), l, r))
  {
    var names := Projected(stmt, tables[stmt.tableName]);
    var result := PairResult(tables, stmt, names, l, r);
    forall name
      ensures name in result.values || name in result.stringValues <==> AskedFor(stmt, tables[stmt.tableName], name)
    {
      ProjectedExactly(stmt, tables[stmt.tableName], name);
    }
    PairValues(tables, stmt, names, l, r);
  }

  /** ON and WHERE hold of the pair. */
  predicate PairSatisfies(tables: TableMap, stmt: SelectStatement, l: Row, r: Row)
    requires IsJoin(tables, stmt)
  {
    var number := name => PairNumber(tables, stmt, l, r, name);
    var text := name => PairText(tables, stmt, l, r, name);
    && Means(stmt.joins[0].condition, number, text)
    && (stmt.whereClause.Some? ==> Means(stmt.whereClause.value, number, text))
  }

  lemma MatchesExactly(tables: TableMap, stmt: SelectStatement, l: Row, r: Row)
    requires IsJoin(tables, stmt)
    ensures Matches(tables, stmt, l, r) <==> PairSatisfies(tables, stmt, l, r)
  {
    var number := name => PairNumber(tables, stmt, l, r, name);
    var text := name => PairText(tables, stmt, l, r, name);
    PairMeans(tables, stmt, stmt.joins[0].condition, l, r, number, text);
    if stmt.whereClause.Some? {
      PairMeans(tables, stmt, stmt.whereClause.value, l, r, number, text);
    }
  }

  /** The right rows among the first j that match a left row, in order. */
  ghost predicate PicksRight(tables: TableMap, stmt: SelectStatement, l: Row, rs: seq<Row>, j: nat, picked: seq<nat>)
    requires IsJoin(tables, stmt) && j <= |rs|
  {
    Increasing(picked) && forall b :: b in picked <==> 0 <= b < j && PairSatisfies(tables, stmt, l, rs[b])
  }

  lemma PicksNoRight(tables: TableMap, stmt: SelectStatement, l: Row, rs: seq<Row>) returns (picked: seq<nat>)
    requires IsJoin(tables, stmt)
    ensures picked == [] && PicksRight(tables, stmt, l, rs, 0, picked)
  {
    picked := [];
  }

  lemma PicksRightNext(tables: TableMap, stmt: SelectStatement, l: Row, rs: seq<Row>, j: nat, picked: seq<nat>)
    requires IsJoin(tables, stmt) && j < |rs| && PicksRight(tables, stmt, l, rs, j, picked)
    ensures PairSatisfies(tables, stmt, l, rs[j]) ==> PicksRight(tables, stmt, l, rs, j + 1, picked + [j])
    ensures !PairSatisfies(tables, stmt, l, rs[j]) ==> PicksRight(tables, stmt, l, rs, j + 1, picked)
  {
    forall a, b | 0 <= a < b < |picked + [j]|
      ensures (picked + [j])[a] < (picked + [j])[b]
    {
      assert picked[a] in picked;
    }
  }

  lemma MatchedNext(tables: TableMap, stmt: SelectStatement, l: Row, rs: seq<Row>, j: nat, picked: seq<nat>)
    requires IsJoin(tables, stmt) && j < |rs| && PicksRight(tables, stmt, l, rs, j, picked)
    ensures PicksRight(tables, stmt, l, rs, j + 1, if Matches(tables, stmt, l, rs[j]) then picked + [j] else picked)
  {
    PicksRightNext(tables, stmt, l, rs, j, picked);
    MatchesExactly(tables, stmt, l, rs[j]);
  }

  /** The rows shown for the matches of one left row. */
  predicate ShowsRight(tables: TableMap, stmt: SelectStatement, names: seq<string>, l: Row, rs: seq<Row>,
                       picked: seq<nat>, shown: seq<ResultRow>)
    requires IsJoin(tables, stmt)
  {
    && |shown| == |picked|
    && forall i :: 0 <= i < |picked| ==>
         picked[i] < |rs| && shown[i] == PairResult(tables, stmt, names, l, rs[picked[i]])
  }

  lemma ShowsRightNext(tables: TableMap, stmt: SelectStatement, names: seq<string>, l: Row, rs: seq<Row>,
                       picked: seq<nat>, shown: seq<ResultRow>, j: nat)
    requires IsJoin(tables, stmt) && j < |rs| && ShowsRight(tables, stmt, names, l, rs, picked, shown)
    ensures
      ShowsRight(tables, stmt, names, l, rs, picked + [j], shown + [PairResult(tables, stmt, names, l, rs[j])])
  {
  }

  lemma {:induction false} RightPicked(tables: TableMap, stmt: SelectStatement, names: seq<string>, l: Row,
                                       rs: seq<Row>, j: nat) returns (picked: seq<nat>)
    requires IsJoin(tables, stmt) && j <= |rs|
    ensures PicksRight(tables, stmt, l, rs, j, picked)
    ensures ShowsRight(tables, stmt, names, l, rs, picked, InnerLoop(tables, stmt, names, l, rs, j))
  {
    if j == 0 {
      picked := PicksNoRight(tables, stmt, l, rs);
    } else {
      var earlier := RightPicked(tables, stmt, names, l, rs, j - 1);
      picked := RightNext(tables, stmt, names, l, rs, j - 1, earlier, InnerLoop(tables, stmt, names, l, rs, j - 1),
                          InnerLoop(tables, stmt, names, l, rs, j));
    }
  }

  lemma RightNext(tables: TableMap, stmt: SelectStatement, names: seq<string>, l: Row, rs: seq<Row>, j: nat,
                  picked: seq<nat>, shown: seq<ResultRow>, longer: seq<ResultRow>) returns (next: seq<nat>)
    requires IsJoin(tables, stmt) && j < |rs|
    requires PicksRight(tables, stmt, l, rs, j, picked) && ShowsRight(tables, stmt, names, l, rs, picked, shown)
    requires longer ==
      if Matches(tables, stmt, l, rs[j]) then shown + [PairResult(tables, stmt, names, l, rs[j])] else shown
    ensures PicksRight(tables, stmt, l, rs, j + 1, next) && ShowsRight(tables, stmt, names, l, rs, next, longer)
  {
    MatchedNext(tables, stmt, l, rs, j, picked);
    ShowsRightNext(tables, stmt, names, l, rs, picked, shown, j);
    next := if Matches(tables, stmt, l, rs[j]) then picked + [j] else picked;
  }

  /** The matches of the first i left rows, one list of right rows for each. */
  ghost predicate PicksPairs(tables: TableMap, stmt: SelectStatement, ls: seq<Row>, rs: seq<Row>, i: nat,
                             picked: seq<seq<nat>>)
    requires IsJoin(tables, stmt) && i <= |ls|
  {
    |picked| == i && forall a :: 0 <= a < i ==> PicksRight(tables, stmt, ls[a], rs, |rs|, picked[a])
  }

  ghost predicate ShowsMatches(tables: TableMap, stmt: SelectStatement, names: seq<string>, ls: seq<Row>, rs: seq<Row>,
                               picked: seq<seq<nat>>, shown: seq<seq<ResultRow>>)
    requires IsJoin(tables, stmt)
  {
    && |shown| == |picked| <= |ls|
    && forall a :: 0 <= a < |picked| ==> ShowsRight(tables, stmt, names, ls[a], rs, picked[a], shown[a])
  }

  lemma PairsNext(tables: TableMap, stmt: SelectStatement, names: seq<string>, ls: seq<Row>, rs: seq<Row>,
                  picked: seq<seq<nat>>, shown: seq<seq<ResultRow>>, last: seq<nat>, inner: seq<ResultRow>)
    requires IsJoin(tables, stmt) && |picked| < |ls|
    requires PicksPairs(tables, stmt, ls, rs, |picked|, picked)
    requires ShowsMatches(tables, stmt, names, ls, rs, picked, shown)
    requires PicksRight(tables, stmt, ls[|picked|], rs, |rs|, last)
    requires ShowsRight(tables, stmt, names, ls[|picked|], rs, last, inner)
    ensures PicksPairs(tables, stmt, ls, rs, |picked| + 1, picked + [last])
    ensures ShowsMatches(tables, stmt, names, ls, rs, picked + [last], shown + [inner])
  {
  }

  lemma {:induction false} PairsPicked(tables: TableMap, stmt: SelectStatement, names: seq<string>, ls: seq<Row>,
                                       rs: seq<Row>, i: nat)
    returns (picked: seq<seq<nat>>, shown: seq<seq<ResultRow>>)
    requires IsJoin(tables, stmt) && i <= |ls|
    ensures PairsShown(tables, stmt, names, ls, rs, i, picked, shown, OuterLoop(tables, stmt, names, ls, rs, i))
  {
    if i == 0 {
      picked, shown := [], [];
    } else {
      var earlier, before := PairsPicked(tables, stmt, names, ls, rs, i - 1);
      var all := OuterLoop(tables, stmt, names, ls, rs, i - 1);
      picked, shown := PairsGrow(tables, stmt, names, ls, rs, i - 1, earlier, before, all,
                                 OuterLoop(tables, stmt, names, ls, rs, i));
    }
  }

  ghost predicate PairsShown(tables: TableMap, stmt: SelectStatement, names: seq<string>, ls: seq<Row>, rs: seq<Row>,
                             i: nat, picked: seq<seq<nat>>, shown: seq<seq<ResultRow>>, all: seq<ResultRow>)
    requires IsJoin(tables, stmt) && i <= |ls|
  {
    && PicksPairs(tables, stmt, ls, rs, i, picked)
    && ShowsMatches(tables, stmt, names, ls, rs, picked, shown)
    && all == Flatten(shown, i)
  }

  lemma PairsGrow(tables: TableMap, stmt: SelectStatement, names: seq<string>, ls: seq<Row>, rs: seq<Row>, i: nat,
                  picked: seq<seq<nat>>, shown: seq<seq<ResultRow>>, all: seq<ResultRow>, longer: seq<ResultRow>)
    returns (nextPicked: seq<seq<nat>>, nextShown: seq<seq<ResultRow>>)
    requires IsJoin(tables, stmt) && i < |ls| && PairsShown(tables, stmt, names, ls, rs, i, picked, shown, all)
    requires longer == all + InnerLoop(tables, stmt, names, ls[i], rs, |rs|)
    ensures PairsShown(tables, stmt, names, ls, rs, i + 1, nextPicked, nextShown, longer)
  {
    var last := RightPicked(tables, stmt, names, ls[i], rs, |rs|);
    var inner := InnerLoop(tables, stmt, names, ls[i], rs, |rs|);
    nextPicked, nextShown := picked + [last], shown + [inner];
    PairsNext(tables, stmt, names, ls, rs, picked, shown, last, inner);
    FlattenNext(shown, inner);
  }

  lemma FlattenNext<T>(parts: seq<seq<T>>, last: seq<T>)
    ensures Flatten(parts + [last], |parts| + 1) == Flatten(parts, |parts|) + last
  {
    FlattenFirst(parts, last, |parts|);
    assert (parts + [last])[|parts|] == last;
  }

  lemma {:induction false} FlattenFirst<T>(parts: seq<seq<T>>, last: seq<T>, k: nat)
    requires k <= |parts|
    ensures Flatten(parts + [last], k) == Flatten(parts, k)
  {
    if k > 0 {
      FlattenFirst(parts, last, k - 1);
    }
  }

  lemma KeysJoin(a: seq<ResultRow>, b: seq<ResultRow>, keys: set<string>)
    requires SameKeys(a, keys) && SameKeys(b, keys)
    ensures SameKeys(a + b, keys)
  {
  }

  lemma PairKeys(tables: TableMap, stmt: SelectStatement, names: seq<string>, l: Row, r: Row)
    requires IsJoin(tables, stmt)
    ensures SameKeys([PairResult(tables, stmt, names, l, r)], JoinIntNames(tables, stmt, names))
  {
    assert PairResult(tables, stmt, names, l, r).values.Keys == JoinIntNames(tables, stmt, names);
  }

  lemma {:induction false} InnerKeys(tables: TableMap, stmt: SelectStatement, names: seq<string>, l: Row, rs: seq<Row>,
                                     j: nat)
    requires IsJoin(tables, stmt) && j <= |rs|
    ensures SameKeys(InnerLoop(tables, stmt, names, l, rs, j), JoinIntNames(tables, stmt, names))
  {
    if j > 0 {
      InnerKeys(tables, stmt, names, l, rs, j - 1);
      PairKeys(tables, stmt, names, l, rs[j - 1]);
      KeysJoin(InnerLoop(tables, stmt, names, l, rs, j - 1), [PairResult(tables, stmt, names, l, rs[j - 1])],
               JoinIntNames(tables, stmt, names));
    }
  }

  lemma {:induction false} OuterKeys(tables: TableMap, stmt: SelectStatement, names: seq<string>, ls: seq<Row>,
                                     rs: seq<Row>, i: nat)
    requires IsJoin(tables, stmt) && i <= |ls|
    ensures SameKeys(OuterLoop(tables, stmt, names, ls, rs, i), JoinIntNames(tables, stmt, names))
  {
    if i > 0 {
      OuterKeys(tables, stmt, names, ls, rs, i - 1);
      InnerKeys(tables, stmt, names, ls[i - 1], rs, |rs|);
      KeysJoin(OuterLoop(tables, stmt, names, ls, rs, i - 1), InnerLoop(tables, stmt, names, ls[i - 1], rs, |rs|),
               JoinIntNames(tables, stmt, names));
    }
  }

  /** The result of a join: for each left row in turn its matching right rows in turn,
      each pair once and under the names asked for, ordered and cut as above. */
  lemma JoinExactly(tables: TableMap, stmt: SelectStatement, ls: seq<Row>, rs: seq<Row>)
    returns (picked: seq<seq<nat>>, shown: seq<seq<ResultRow>>)
    requires IsJoin(tables, stmt)
    ensures PicksPairs(tables, stmt, ls, rs, |ls|, picked) && |shown| == |picked|
    ensures forall a :: 0 <= a < |ls| ==> |shown[a]| == |picked[a]|
    ensures forall a, i :: 0 <= a < |ls| && 0 <= i < |picked[a]| ==>
      picked[a][i] < |rs| && ShowsPair(tables, stmt, ls[a], rs[picked[a][i]], shown[a][i])
    ensures Ordered(Flatten(shown, |shown|), stmt.orderBy, stmt.limitCount, PlainJoin(tables, stmt, ls, rs))
  {
    var names := Projected(stmt, tables[stmt.tableName]);
    picked, shown := PairsPicked(tables, stmt, names, ls, rs, |ls|);
    forall a, i | 0 <= a < |ls| && 0 <= i < |picked[a]|
      ensures picked[a][i] < |rs| && ShowsPair(tables, stmt, ls[a], rs[picked[a][i]], shown[a][i])
    {
      assert ShowsRight(tables, stmt, names, ls[a], rs, picked[a], shown[a]);
      PairShows(tables, stmt, ls[a], rs[picked[a][i]]);
    }
    OuterKeys(tables, stmt, names, ls, rs, |ls|);
    SortedInOrder(OuterLoop(tables, stmt, names, ls, rs, |ls|), stmt.orderBy, JoinIntNames(tables, stmt, names),
                  stmt.limitCount);
  }
}
