// The joined rows that the package's names select are those of the plaintext join.

module JoinMeaning {
  import opened Common
  import opened Catalog
  import opened Ast
  import opened Package
  import opened Plain
  import opened Planner
  import opened TableQuery
  import opened Pipeline
  import opened JoinExecution
  import opened JoinQuery
  import opened JoinResult
  import opened JoinPlain

  /** The package carries the join of the statement. */
  predicate CarriesJoin(pkg: QueryPackage, stmt: SelectStatement) {
    && |stmt.joins| == 1
    && pkg.tableName == stmt.tableName && pkg.tableAlias == stmt.tableAlias
    && pkg.joinedTableName == stmt.joins[0].rightTable.tableName
    && pkg.joinedTableAlias == stmt.joins[0].rightTable.alias
  }

  /** A planned join of the statement, as far as its plaintext meaning is concerned. */
  ghost predicate MeansJoin(tables: TableMap, stmt: SelectStatement, pkg: QueryPackage) {
    && IsJoin(tables, stmt) && CarriesJoin(pkg, stmt)
    && JoinPlanned(pkg, tables, stmt.whereClause)
    && stmt.joins[0].condition == OnEquality(pkg)
    && pkg.projectColumns == Projected(stmt, tables[stmt.tableName])
  }

  /** A name the planned join reads means the same column to the executor. */
  lemma SideMeant(tables: TableMap, stmt: SelectStatement, pkg: QueryPackage, q: string, l: Row, r: Row)
    requires IsJoin(tables, stmt) && CarriesJoin(pkg, stmt)
    requires PairInt(pkg, tables, q) || PairProjected(pkg, tables, q)
    ensures RowNamed(tables, stmt, q, l, r) == SideRow(pkg, q, l, r)
    ensures ColumnNamed(tables, stmt, q) == Some(SideColumn(pkg, tables, q))
  {
  }

  lemma NameMeant(tables: TableMap, stmt: SelectStatement, pkg: QueryPackage, names: set<string>, q: string, l: Row,
                  r: Row)
    requires IsJoin(tables, stmt) && CarriesJoin(pkg, stmt) && q in names
    requires PairInt(pkg, tables, q) || PairProjected(pkg, tables, q)
    ensures IntNamed(tables, stmt, q, l, r) == IntAt(JoinedRow(pkg, names, l, r), q)
    ensures StringNamed(tables, stmt, q, l, r) == StringAt(JoinedRow(pkg, names, l, r), q)
  {
    SideMeant(tables, stmt, pkg, q, l, r);
    JoinedReads(pkg, names, l, r, q);
  }

  lemma {:induction false} ConditionMeant(tables: TableMap, stmt: SelectStatement, pkg: QueryPackage, e: Expr,
                                          schema: TableSchema, names: set<string>, l: Row, r: Row)
    requires IsJoin(tables, stmt) && CarriesJoin(pkg, stmt) && PairTyped(pkg, tables, e) && IsPredicate(e, schema)
    requires ColumnNames(e) <= names
    ensures Holds(tables, stmt, e, l, r) == EvalPlain(e, schema, JoinedRow(pkg, names, l, r))
  {
    match e
    case Compare(_, x, y) =>
      if x.ColumnRef? {
        NameMeant(tables, stmt, pkg, names, x.name, l, r);
      }
      if y.ColumnRef? {
        NameMeant(tables, stmt, pkg, names, y.name, l, r);
      }
    case Not(x) =>
      ConditionMeant(tables, stmt, pkg, x, schema, names, l, r);
    case And(x, y) =>
      ConditionMeant(tables, stmt, pkg, x, schema, names, l, r);
      ConditionMeant(tables, stmt, pkg, y, schema, names, l, r);
    case Or(x, y) =>
      ConditionMeant(tables, stmt, pkg, x, schema, names, l, r);
      ConditionMeant(tables, stmt, pkg, y, schema, names, l, r);
  }

  lemma MatchMeant(tables: TableMap, stmt: SelectStatement, pkg: QueryPackage, schema: TableSchema, l: Row, r: Row)
    requires MeansJoin(tables, stmt, pkg) && IsPredicate(PairCondition(pkg, stmt.whereClause), schema)
    ensures Matches(tables, stmt, l, r) ==
      EvalPlain(PairCondition(pkg, stmt.whereClause), schema, JoinedRow(pkg, QueryNames(pkg, stmt.whereClause), l, r))
  {
    var names := QueryNames(pkg, stmt.whereClause);
    assert ColumnNames(PairCondition(pkg, stmt.whereClause)) <= names;
    ConditionMeant(tables, stmt, pkg, OnEquality(pkg), schema, names, l, r);
    if stmt.whereClause.Some? {
      ConditionMeant(tables, stmt, pkg, stmt.whereClause.value, schema, names, l, r);
    }
  }

  lemma KindMeant(tables: TableMap, stmt: SelectStatement, pkg: QueryPackage, q: string)
    requires MeansJoin(tables, stmt, pkg) && AllProjected(pkg, tables) && q in pkg.projectColumns
    ensures ResultTable(pkg, tables).HasColumn(q)
    ensures IsString(tables, stmt, q) <==> ResultTable(pkg, tables).Column(q).kind == STRING
  {
    var k :| 0 <= k < |pkg.projectColumns| && pkg.projectColumns[k] == q;
    ResultHas(pkg, tables, k);
    SideMeant(tables, stmt, pkg, q, map[], map[]);
  }

  /** A name reads the same from a joined row as from the pair. */
  ghost predicate ReadsAlike(tables: TableMap, stmt: SelectStatement, schema: TableSchema, row: Row, l: Row, r: Row,
                             q: string)
    requires IsJoin(tables, stmt) && schema.HasColumn(q)
  {
    && (IsString(tables, stmt, q) <==> schema.Column(q).kind == STRING)
    && IntNamed(tables, stmt, q, l, r) == IntAt(row, q) && StringNamed(tables, stmt, q, l, r) == StringAt(row, q)
  }

  lemma SameMaps<T>(x: map<string, T>, y: map<string, T>)
    requires forall q :: (q in x <==> q in y) && (q in x ==> x[q] == y[q])
    ensures x == y
  {
  }

  lemma SameEntries(tables: TableMap, stmt: SelectStatement, schema: TableSchema, names: seq<string>, row: Row, l: Row,
                    r: Row, q: string)
    requires IsJoin(tables, stmt) && Projectable(schema, names)
    requires q in names ==> schema.HasColumn(q) && ReadsAlike(tables, stmt, schema, row, l, r, q)
    ensures
      var x, y := PairResult(tables, stmt, names, l, r), ProjectRow(schema, names, row);
      && (q in x.values <==> q in y.values) && (q in x.values ==> x.values[q] == y.values[q])
      && (q in x.stringValues <==> q in y.stringValues)
      && (q in x.stringValues ==> x.stringValues[q] == y.stringValues[q])
  {
  }

  lemma SameResult(tables: TableMap, stmt: SelectStatement, schema: TableSchema, names: seq<string>, row: Row, l: Row,
                   r: Row)
    requires IsJoin(tables, stmt) && Projectable(schema, names)
    requires forall q :: q in names ==> schema.HasColumn(q) && ReadsAlike(tables, stmt, schema, row, l, r, q)
    ensures PairResult(tables, stmt, names, l, r) == ProjectRow(schema, names, row)
  {
    var x, y := PairResult(tables, stmt, names, l, r), ProjectRow(schema, names, row);
    forall q
      ensures (q in x.values <==> q in y.values) && (q in x.values ==> x.values[q] == y.values[q])
      ensures q in x.stringValues <==> q in y.stringValues
      ensures q in x.stringValues ==> x.stringValues[q] == y.stringValues[q]
    {
      SameEntries(tables, stmt, schema, names, row, l, r, q);
    }
    SameMaps(x.values, y.values);
    SameMaps(x.stringValues, y.stringValues);
  }

  lemma ProjectionMeant(tables: TableMap, stmt: SelectStatement, pkg: QueryPackage, l: Row, r: Row)
    requires MeansJoin(tables, stmt, pkg) && AllProjected(pkg, tables)
    requires Projectable(ResultTable(pkg, tables), pkg.projectColumns)
    ensures PairResult(tables, stmt, pkg.projectColumns, l, r) ==
      ProjectRow(ResultTable(pkg, tables), pkg.projectColumns, JoinedRow(pkg, QueryNames(pkg, stmt.whereClause), l, r))
  {
    var names := QueryNames(pkg, stmt.whereClause);
    var schema, row := ResultTable(pkg, tables), JoinedRow(pkg, names, l, r);
    forall q | q in pkg.projectColumns
      ensures schema.HasColumn(q) && ReadsAlike(tables, stmt, schema, row, l, r, q)
    {
      KindMeant(tables, stmt, pkg, q);
      NameMeant(tables, stmt, pkg, names, q, l, r);
    }
    SameResult(tables, stmt, schema, pkg.projectColumns, row, l, r);
  }

  lemma IntNamesMeant(tables: TableMap, stmt: SelectStatement, pkg: QueryPackage)
    requires MeansJoin(tables, stmt, pkg) && AllProjected(pkg, tables)
    requires Projectable(ResultTable(pkg, tables), pkg.projectColumns)
    ensures JoinIntNames(tables, stmt, pkg.projectColumns) == IntNames(ResultTable(pkg, tables), pkg.projectColumns)
  {
    forall q | q in pkg.projectColumns
      ensures IsString(tables, stmt, q) <==> ResultTable(pkg, tables).Column(q).kind == STRING
    {
      KindMeant(tables, stmt, pkg, q);
    }
  }

  // ---- The nested loops ----

  /** A row is kept and projected like the pair it was joined from. */
  ghost predicate RowMeant(tables: TableMap, stmt: SelectStatement, condition: Expr, schema: TableSchema,
                           names: seq<string>, row: Row, l: Row, r: Row)
    requires IsJoin(tables, stmt) && Projectable(schema, names) && IsPredicate(condition, schema)
  {
    && Matches(tables, stmt, l, r) == EvalPlain(condition, schema, row)
    && PairResult(tables, stmt, names, l, r) == ProjectRow(schema, names, row)
  }

  /** Position of the pair of left a and right b, with n right rows. */
  function PairIndex(a: nat, b: nat, n: nat): nat { a * n + b }

  lemma NextLeft(a: nat, n: nat)
    ensures PairIndex(a + 1, 0, n) == PairIndex(a, n, n)
  {
  }

  ghost predicate RowsMeant(tables: TableMap, stmt: SelectStatement, condition: Expr, schema: TableSchema,
                            names: seq<string>, ls: seq<Row>, rs: seq<Row>, rows: seq<Row>)
    requires IsJoin(tables, stmt) && Projectable(schema, names) && IsPredicate(condition, schema)
  {
    forall a: nat, b: nat :: a < |ls| && b < |rs| ==>
      PairIndex(a, b, |rs|) < |rows| &&
      RowMeant(tables, stmt, condition, schema, names, rows[PairIndex(a, b, |rs|)], ls[a], rs[b])
  }

  /** Filtering and projecting the rows up to the b-th of left row a gives what the
      nested loops have collected there. */
  ghost predicate LoopsAgree(tables: TableMap, stmt: SelectStatement, condition: Expr, schema: TableSchema,
                             names: seq<string>, ls: seq<Row>, rs: seq<Row>, rows: seq<Row>, a: nat, b: nat)
    requires IsJoin(tables, stmt) && Projectable(schema, names) && IsPredicate(condition, schema)
    requires a < |ls| && b <= |rs|
  {
    && PairIndex(a, b, |rs|) <= |rows|
    && PlainRows(Some(condition), schema, names, rows, PairIndex(a, b, |rs|)) ==
       OuterLoop(tables, stmt, names, ls, rs, a) + InnerLoop(tables, stmt, names, ls[a], rs, b)
  }

  lemma NextInner(tables: TableMap, stmt: SelectStatement, condition: Expr, schema: TableSchema, names: seq<string>,
                  ls: seq<Row>, rs: seq<Row>, rows: seq<Row>, a: nat, b: nat)
    requires IsJoin(tables, stmt) && Projectable(schema, names) && IsPredicate(condition, schema)
    requires a < |ls| && b < |rs| && PairIndex(a, b, |rs|) < |rows|
    requires RowMeant(tables, stmt, condition, schema, names, rows[PairIndex(a, b, |rs|)], ls[a], rs[b])
    requires LoopsAgree(tables, stmt, condition, schema, names, ls, rs, rows, a, b)
    ensures LoopsAgree(tables, stmt, condition, schema, names, ls, rs, rows, a, b + 1)
  {
    assert PairIndex(a, b + 1, |rs|) == PairIndex(a, b, |rs|) + 1;
  }

  lemma NextOuter(tables: TableMap, stmt: SelectStatement, condition: Expr, schema: TableSchema, names: seq<string>,
                  ls: seq<Row>, rs: seq<Row>, rows: seq<Row>, a: nat)
    requires IsJoin(tables, stmt) && Projectable(schema, names) && IsPredicate(condition, schema)
    requires a + 1 < |ls| && LoopsAgree(tables, stmt, condition, schema, names, ls, rs, rows, a, |rs|)
    ensures LoopsAgree(tables, stmt, condition, schema, names, ls, rs, rows, a + 1, 0)
  {
    NextLeft(a, |rs|);
    assert InnerLoop(tables, stmt, names, ls[a + 1], rs, 0) == [];
  }

  lemma {:induction false} LoopsMeant(tables: TableMap, stmt: SelectStatement, condition: Expr, schema: TableSchema,
                                      names: seq<string>, ls: seq<Row>, rs: seq<Row>, rows: seq<Row>, a: nat, b: nat)
    requires IsJoin(tables, stmt) && Projectable(schema, names) && IsPredicate(condition, schema)
    requires RowsMeant(tables, stmt, condition, schema, names, ls, rs, rows) && a < |ls| && b <= |rs|
    ensures LoopsAgree(tables, stmt, condition, schema, names, ls, rs, rows, a, b)
    decreases a, b
  {
    if b > 0 {
      LoopsMeant(tables, stmt, condition, schema, names, ls, rs, rows, a, b - 1);
      assert RowMeant(tables, stmt, condition, schema, names, rows[PairIndex(a, b - 1, |rs|)], ls[a], rs[b - 1]);
      NextInner(tables, stmt, condition, schema, names, ls, rs, rows, a, b - 1);
    } else if a > 0 {
      LoopsMeant(tables, stmt, condition, schema, names, ls, rs, rows, a - 1, |rs|);
      NextOuter(tables, stmt, condition, schema, names, ls, rs, rows, a - 1);
    }
  }

  lemma AllLoopsMeant(tables: TableMap, stmt: SelectStatement, condition: Expr, schema: TableSchema, names: seq<string>,
                      ls: seq<Row>, rs: seq<Row>, rows: seq<Row>)
    requires IsJoin(tables, stmt) && Projectable(schema, names) && IsPredicate(condition, schema)
    requires RowsMeant(tables, stmt, condition, schema, names, ls, rs, rows) && |rows| == PairIndex(|ls|, 0, |rs|)
    ensures PlainRows(Some(condition), schema, names, rows, |rows|) == OuterLoop(tables, stmt, names, ls, rs, |ls|)
  {
    if |ls| > 0 {
      LoopsMeant(tables, stmt, condition, schema, names, ls, rs, rows, |ls| - 1, |rs|);
      NextLeft(|ls| - 1, |rs|);
    }
  }

  lemma JoinedRowsMeant(tables: TableMap, stmt: SelectStatement, pkg: QueryPackage, ls: seq<Row>, rs: seq<Row>)
    requires MeansJoin(tables, stmt, pkg) && AllProjected(pkg, tables)
    requires Projectable(ResultTable(pkg, tables), pkg.projectColumns)
    requires IsPredicate(PairCondition(pkg, stmt.whereClause), ResultTable(pkg, tables))
    ensures RowsMeant(tables, stmt, PairCondition(pkg, stmt.whereClause), ResultTable(pkg, tables), pkg.projectColumns,
                      ls, rs, JoinedRows(pkg, stmt.whereClause, ls, rs))
    ensures |JoinedRows(pkg, stmt.whereClause, ls, rs)| == PairIndex(|ls|, 0, |rs|)
  {
    PairsAt(ls, rs, |ls|, 0, 0);
    forall a: nat, b: nat | a < |ls| && b < |rs|
      ensures PairIndex(a, b, |rs|) < |JoinedRows(pkg, stmt.whereClause, ls, rs)|
      ensures RowMeant(tables, stmt, PairCondition(pkg, stmt.whereClause), ResultTable(pkg, tables), pkg.projectColumns,
                       JoinedRows(pkg, stmt.whereClause, ls, rs)[PairIndex(a, b, |rs|)], ls[a], rs[b])
    {
      PairsAt(ls, rs, |ls|, a, b);
      RowOfPair(pkg, stmt.whereClause, ls, rs, PairIndex(a, b, |rs|), ls[a], rs[b]);
      MatchMeant(tables, stmt, pkg, ResultTable(pkg, tables), ls[a], rs[b]);
      ProjectionMeant(tables, stmt, pkg, ls[a], rs[b]);
    }
  }

  /** Filtering and projecting the joined rows is the plaintext join before sorting. */
  lemma PairsArePlainJoin(tables: TableMap, stmt: SelectStatement, pkg: QueryPackage, ls: seq<Row>, rs: seq<Row>)
    requires MeansJoin(tables, stmt, pkg) && AllProjected(pkg, tables)
    requires Projectable(ResultTable(pkg, tables), pkg.projectColumns)
    requires IsPredicate(PairCondition(pkg, stmt.whereClause), ResultTable(pkg, tables))
    ensures
      var rows := JoinedRows(pkg, stmt.whereClause, ls, rs);
      var condition := Some(PairCondition(pkg, stmt.whereClause));
      PlainRows(condition, ResultTable(pkg, tables), pkg.projectColumns, rows, |rows|) ==
        OuterLoop(tables, stmt, pkg.projectColumns, ls, rs, |ls|)
  {
    JoinedRowsMeant(tables, stmt, pkg, ls, rs);
    AllLoopsMeant(tables, stmt, PairCondition(pkg, stmt.whereClause), ResultTable(pkg, tables), pkg.projectColumns, ls,
                  rs, JoinedRows(pkg, stmt.whereClause, ls, rs));
  }
}
