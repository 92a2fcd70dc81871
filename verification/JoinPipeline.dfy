// Whole join queries against plaintext execution, and which of them the server's
// validator lets through.

module JoinPipeline {
  import opened Common
  import opened Catalog
  import opened Ast
  import opened PrimeField
  import opened Package
  import opened Encryptor
  import opened Rebuild
  import opened Plain
  import opened Compiler
  import opened Semantic
  import opened Planner
  import opened QueryEncryption
  import opened Validator
  import opened Execution
  import opened Decoder
  import opened SortLimit
  import opened TableQuery
  import opened WellTyped
  import opened Pipeline
  import opened JoinExecution
  import opened JoinColumns
  import opened JoinQuery
  import opened JoinResult
  import opened JoinPlain
  import opened JoinMeaning

  // ---- The validator's check of the scan list ----

  /** The scan list collects the bare name of every column, of either table. */
  lemma {:induction false} CollectExact(e: Expr, columns: seq<string>, c: string)
    ensures c in Collect(e, columns) <==> c in columns || exists q :: q in ColumnNames(e) && BareName(q) == c
    decreases e
  {
    match e
    case ColumnRef(name) =>
      assert name in ColumnNames(e);
    case IntLiteral(_) =>
    case StringLiteral(_) =>
    case Not(l) => CollectExact(l, columns, c);
    case Compare(_, l, r) => CollectExact(l, columns, c); CollectExact(r, Collect(l, columns), c);
    case And(l, r) => CollectExact(l, columns, c); CollectExact(r, Collect(l, columns), c);
    case Or(l, r) => CollectExact(l, columns, c); CollectExact(r, Collect(l, columns), c);
  }

  /** Every column WHERE names, by its bare name, is a column of the main table. */
  predicate WhereInMain(where: Option<Expr>, schema: TableSchema) {
    where.Some? ==> forall q :: q in ColumnNames(where.value) ==> schema.HasColumn(BareName(q))
  }

  lemma WhereScanned(stmt: SelectStatement, schema: TableSchema, q: string)
    requires Plannable(stmt) && stmt.whereClause.Some? && q in ColumnNames(stmt.whereClause.value)
    ensures BareName(q) in PlanOf(stmt, schema).scanColumns
  {
    var filtered := Collect(stmt.whereClause.value, []);
    CollectExact(stmt.whereClause.value, [], BareName(q));
    ProjectedListed(filtered, ScanOf(stmt), Projected(stmt, schema), |Projected(stmt, schema)|);
    var k :| 0 <= k < |filtered| && filtered[k] == BareName(q);
    assert PlanOf(stmt, schema).scanColumns[k] == filtered[k];
  }

  /** The projected names that the plan attributes to the main table belong to it. */
  predicate MainProjected(stmt: SelectStatement, schema: TableSchema)
    requires Plannable(stmt)
  {
    forall k :: 0 <= k < |Projected(stmt, schema)| && !OfJoined(ScanOf(stmt), Projected(stmt, schema)[k]) ==>
      schema.HasColumn(BareName(Projected(stmt, schema)[k]))
  }

  lemma {:induction false} ScannedFrom(columns: seq<string>, scan: LogicalNode, project: seq<string>, k: nat,
                                       name: string)
    requires scan.Scan? && k <= |project| && name in WithProjected(columns, scan, project, k)
    ensures name in columns || exists j :: 0 <= j < k && !OfJoined(scan, project[j]) && name == BareName(project[j])
  {
    if k > 0 && name in WithProjected(columns, scan, project, k - 1) {
      ScannedFrom(columns, scan, project, k - 1, name);
    }
  }

  lemma ScanNameKnown(stmt: SelectStatement, schema: TableSchema, name: string)
    requires Plannable(stmt) && MainProjected(stmt, schema) && WhereInMain(stmt.whereClause, schema)
    requires name in PlanOf(stmt, schema).scanColumns
    ensures schema.HasColumn(name)
  {
    var filtered := if stmt.whereClause.Some? then Collect(stmt.whereClause.value, []) else [];
    var project := Projected(stmt, schema);
    ScannedFrom(filtered, ScanOf(stmt), project, |project|, name);
    if name in filtered {
      CollectExact(stmt.whereClause.value, [], name);
    }
  }

  lemma ListedKnown(schema: TableSchema, names: seq<string>, name: string)
    requires AllKnown(schema, names) && name in names
    ensures schema.HasColumn(name)
  {
    var k :| 0 <= k < |names| && names[k] == name;
    assert schema.HasColumn(names[k]);
  }

  /** The planner lists WHERE columns of both tables for the scan of the main one, so
      the validator's scan check passes exactly when each of them, by its bare name,
      is also a column of the main table, as are the projected names that the plan
      attributes to it. */
  lemma ScanCheckExact(stmt: SelectStatement, schema: TableSchema)
    requires Plannable(stmt)
    ensures AllKnown(schema, PlanOf(stmt, schema).scanColumns) <==>
      WhereInMain(stmt.whereClause, schema) && MainProjected(stmt, schema)
  {
    var scan := PlanOf(stmt, schema).scanColumns;
    if WhereInMain(stmt.whereClause, schema) && MainProjected(stmt, schema) {
      forall k | 0 <= k < |scan|
        ensures schema.HasColumn(scan[k])
      {
        ScanNameKnown(stmt, schema, scan[k]);
      }
    }
    if AllKnown(schema, scan) {
      ScanCheckNeeds(stmt, schema);
    }
  }

  lemma ScanCheckNeeds(stmt: SelectStatement, schema: TableSchema)
    requires Plannable(stmt) && AllKnown(schema, PlanOf(stmt, schema).scanColumns)
    ensures WhereInMain(stmt.whereClause, schema) && MainProjected(stmt, schema)
  {
    var scan := PlanOf(stmt, schema).scanColumns;
    if stmt.whereClause.Some? {
      forall q | q in ColumnNames(stmt.whereClause.value)
        ensures schema.HasColumn(BareName(q))
      {
        WhereScanned(stmt, schema, q);
        ListedKnown(schema, scan, BareName(q));
      }
    }
    PlanCoverage(stmt, schema);
    var project := Projected(stmt, schema);
    forall k | 0 <= k < |project| && !OfJoined(ScanOf(stmt), project[k])
      ensures schema.HasColumn(BareName(project[k]))
    {
      assert PlanOf(stmt, schema).projectColumns[k] == project[k];
      ListedKnown(schema, scan, BareName(project[k]));
    }
  }

  /** So a WHERE on a column that only the joined table has is always rejected, by any
      server stack. */
  lemma JoinedOnlyWhereRejected(p: OddPrime, slotCount: nat, tables: TableMap, stmt: SelectStatement,
                                paramSetId: string, stack: nat, q: string)
    requires stmt.tableName in tables && Plannable(stmt) && Encryptable(stmt, PlanFor(tables, stmt), tables)
    requires stmt.whereClause.Some? && q in ColumnNames(stmt.whereClause.value)
    requires !tables[stmt.tableName].HasColumn(BareName(q))
    ensures !PackageAccepted(PackageFor(p, slotCount, stmt, PlanFor(tables, stmt), tables, paramSetId), tables,
                             paramSetId, stack)
  {
    var pkg := PackageFor(p, slotCount, stmt, PlanFor(tables, stmt), tables, paramSetId);
    WhereScanned(stmt, tables[stmt.tableName], q);
    var k :| 0 <= k < |pkg.scanColumns| && pkg.scanColumns[k] == BareName(q);
    assert !tables[pkg.tableName].HasColumn(pkg.scanColumns[k]);
  }

  // ---- The validator on a planned join ----

  ghost predicate JoinServed(pkg: QueryPackage, tables: TableMap) {
    && pkg.tableName in tables && pkg.joinedTableName in tables && pkg.hasJoin && AliasesApart(pkg)
    && |pkg.predicateNodes| <= UINT32_MAX
    && Numbered(pkg.encryptedLiterals) && |pkg.encryptedLiterals| <= UINT32_MAX
  }

  lemma PairLeafAccepted(p: OddPrime, slotCount: nat, e: Expr, pkg: QueryPackage, tables: TableMap, schema: TableSchema,
                         idx: uint32, stack: nat)
    requires JoinServed(pkg, tables) && PairRunnable(pkg, tables, e) && Compilable(e, schema) && stack > 0
    requires e.ColumnRef? || e.IntLiteral?
    requires Represents(p, slotCount, pkg.predicateNodes, pkg.encryptedLiterals, idx, e, schema)
    ensures TreeAccepted(pkg, tables, idx, stack)
  {
    if e.IntLiteral? {
      NumberedLookup(pkg.encryptedLiterals, pkg.predicateNodes[idx].literalId);
    }
  }

  lemma {:induction false} PairTreeAccepted(p: OddPrime, slotCount: nat, e: Expr, pkg: QueryPackage, tables: TableMap,
                                            schema: TableSchema, idx: uint32, node: PredNode, stack: nat)
    requires JoinServed(pkg, tables) && PairRunnable(pkg, tables, e) && Compilable(e, schema) && stack >= Height(e)
    requires idx < |pkg.predicateNodes| && pkg.predicateNodes[idx] == node
    requires Represents(p, slotCount, pkg.predicateNodes, pkg.encryptedLiterals, idx, e, schema)
    ensures TreeAccepted(pkg, tables, idx, stack)
    decreases e
  {
    if e.ColumnRef? || e.IntLiteral? {
      PairLeafAccepted(p, slotCount, e, pkg, tables, schema, idx, stack);
    } else {
      assert IsBinary(e) || e.Not?;
      ChildrenRepresented(p, slotCount, e, schema, pkg, idx, node);
      PairTreeAccepted(p, slotCount, e.left, pkg, tables, schema, node.left, pkg.predicateNodes[node.left], stack - 1);
      if !e.Not? {
        PairTreeAccepted(p, slotCount, e.right, pkg, tables, schema, node.right, pkg.predicateNodes[node.right],
                         stack - 1);
      }
      ParentAccepted(e, pkg, tables, idx, node, stack);
    }
  }

  /** The validator's checks of a filter. */
  ghost predicate FilterPasses(pkg: QueryPackage, tables: TableMap, stack: nat) {
    && pkg.tableName in tables && 0 < |pkg.predicateNodes| <= UINT32_MAX
    && TreeAccepted(pkg, tables, |pkg.predicateNodes| - 1, stack)
    && NoEmptyLiteral(pkg.encryptedLiterals)
  }

  lemma PairTreePasses(p: OddPrime, slotCount: nat, e: Expr, pkg: QueryPackage, tables: TableMap, schema: TableSchema,
                       stack: nat)
    requires pkg.tableName in tables && pkg.joinedTableName in tables && pkg.hasJoin && AliasesApart(pkg)
    requires PairRunnable(pkg, tables, e) && Compilable(e, schema)
    requires CarriesPredicate(p, slotCount, e, schema, pkg) && Height(e) <= stack
    ensures FilterPasses(pkg, tables, stack)
  {
    WalkExtends(p, slotCount, e, schema, NO_TABLES);
    WalkRepresents(p, slotCount, e, schema, NO_TABLES);
    WalkSerialises(p, slotCount, e, schema, NO_TABLES);
    var root := |pkg.predicateNodes| - 1;
    PairTreeAccepted(p, slotCount, e, pkg, tables, schema, root, pkg.predicateNodes[root], stack);
  }

  // ---- The whole query ----

  /** A join query the theorem speaks about: accepted by the analyzer, one join with
      its left operand on the main table, integer predicates over qualified columns
      that pass the scan check, and both tables stored one row a chunk. */
  ghost predicate JoinStatement(p: OddPrime, slotCount: nat, tables: TableMap, stmt: SelectStatement,
                                paramSetId: string, stack: nat)
  {
    && StatementAccepted(tables, stmt) && |stmt.joins| == 1 && Plannable(stmt)
    && Encryptable(stmt, PlanFor(tables, stmt), tables)
    && var pkg := PackageFor(p, slotCount, stmt, PlanFor(tables, stmt), tables, paramSetId);
    && JoinPlanned(pkg, tables, stmt.whereClause)
    && WhereInMain(stmt.whereClause, tables[stmt.tableName])
    && Fits(stmt.whereClause, tables[stmt.tableName], stack)
  }

  /** Of those, the conditions that the server needs in order to execute the query; the
      filter may have any shape. */
  ghost predicate RunnableJoin(p: OddPrime, slotCount: nat, tables: TableMap, stmt: SelectStatement,
                               paramSetId: string, stack: nat)
  {
    && StatementAccepted(tables, stmt) && |stmt.joins| == 1 && Plannable(stmt)
    && Encryptable(stmt, PlanFor(tables, stmt), tables)
    && var pkg := PackageFor(p, slotCount, stmt, PlanFor(tables, stmt), tables, paramSetId);
    && JoinScannable(pkg, tables, stmt.whereClause)
    && WhereInMain(stmt.whereClause, tables[stmt.tableName])
    && Fits(stmt.whereClause, tables[stmt.tableName], stack)
  }

  lemma JoinRunnable(p: OddPrime, slotCount: nat, tables: TableMap, stmt: SelectStatement, paramSetId: string,
                     stack: nat)
    requires JoinStatement(p, slotCount, tables, stmt, paramSetId, stack)
    ensures RunnableJoin(p, slotCount, tables, stmt, paramSetId, stack)
  {
    PlannedScannable(PackageFor(p, slotCount, stmt, PlanFor(tables, stmt), tables, paramSetId), tables,
                     stmt.whereClause);
  }

  /** Both tables are stored, one row a chunk. */
  ghost predicate BothStored(p: OddPrime, tables: TableMap, storage: Storage, stmt: SelectStatement, ls: seq<Row>,
                             rs: seq<Row>)
    requires TablesKnown(tables, stmt) && |stmt.joins| == 1
  {
    var joined := stmt.joins[0].rightTable.tableName;
    && stmt.tableName in storage && RowsStored(p, tables[stmt.tableName], storage[stmt.tableName], ls)
    && joined in storage && RowsStored(p, tables[joined], storage[joined], rs)
  }

  /** Such a query over stored tables. */
  ghost predicate JoinStored(p: OddPrime, slotCount: nat, tables: TableMap, storage: Storage, stmt: SelectStatement,
                             ls: seq<Row>, rs: seq<Row>, paramSetId: string, stack: nat)
  {
    && slotCount >= 1
    && JoinStatement(p, slotCount, tables, stmt, paramSetId, stack)
    && BothStored(p, tables, storage, stmt, ls, rs)
  }

  /** Whose pairs meet the conditions of plaintext execution. */
  ghost predicate JoinQueryMeant(p: OddPrime, slotCount: nat, tables: TableMap, storage: Storage, stmt: SelectStatement,
                                 ls: seq<Row>, rs: seq<Row>, paramSetId: string, stack: nat)
  {
    && JoinStored(p, slotCount, tables, storage, stmt, ls, rs, paramSetId, stack)
    && var pkg := PackageFor(p, slotCount, stmt, PlanFor(tables, stmt), tables, paramSetId);
    JoinedAllFine(p, pkg, tables, stmt.whereClause, JoinedRows(pkg, stmt.whereClause, ls, rs))
  }

  /** Whose kept pairs have strings the ASCII decoder can carry: no condition on any
      integer, nor on pairs that the condition drops. */
  ghost predicate ZpJoinMeant(p: OddPrime, slotCount: nat, tables: TableMap, storage: Storage, stmt: SelectStatement,
                              ls: seq<Row>, rs: seq<Row>, paramSetId: string, stack: nat)
  {
    && JoinStored(p, slotCount, tables, storage, stmt, ls, rs, paramSetId, stack)
    && var pkg := PackageFor(p, slotCount, stmt, PlanFor(tables, stmt), tables, paramSetId);
    JoinedAllZpFine(p, pkg, tables, stmt.whereClause, JoinedRows(pkg, stmt.whereClause, ls, rs))
  }

  lemma JoinFilterRebuilt(p: OddPrime, slotCount: nat, tables: TableMap, stmt: SelectStatement, paramSetId: string,
                          stack: nat)
    requires RunnableJoin(p, slotCount, tables, stmt, paramSetId, stack)
    ensures
      var pkg := PackageFor(p, slotCount, stmt, PlanFor(tables, stmt), tables, paramSetId);
      && FilterOf(pkg, stack).Ok?
      && JoinFilter(p, slotCount, pkg, tables, stmt.whereClause, FilterOf(pkg, stack).value)
  {
    var plan := PlanFor(tables, stmt);
    var pkg := PackageFor(p, slotCount, stmt, plan, tables, paramSetId);
    if stmt.whereClause.Some? {
      PairCompiles(pkg, tables, stmt.whereClause.value, tables[stmt.tableName]);
    }
    FilterRebuilt(p, slotCount, stmt, plan, tables, paramSetId, stack);
  }

  /** Without a column node of the joined table, WHERE names left columns only. */
  lemma HoistedNames(p: OddPrime, slotCount: nat, tables: TableMap, stmt: SelectStatement, paramSetId: string,
                     stack: nat)
    requires RunnableJoin(p, slotCount, tables, stmt, paramSetId, stack) && stmt.whereClause.Some?
    requires !UsesJoined(PackageFor(p, slotCount, stmt, PlanFor(tables, stmt), tables, paramSetId))
    ensures
      var pkg := PackageFor(p, slotCount, stmt, PlanFor(tables, stmt), tables, paramSetId);
      forall q :: q in ColumnNames(stmt.whereClause.value) ==> OnLeft(pkg, q)
  {
    var pkg := PackageFor(p, slotCount, stmt, PlanFor(tables, stmt), tables, paramSetId);
    var e, schema := stmt.whereClause.value, tables[stmt.tableName];
    assert CarriesPredicate(p, slotCount, e, schema, pkg);
    forall q | q in ColumnNames(e)
      ensures OnLeft(pkg, q)
    {
      if !OnLeft(pkg, q) {
        JoinedUseSeen(p, slotCount, pkg, tables, e, schema, q);
      }
    }
  }

  lemma JoinNamesKnown(pkg: QueryPackage, tables: TableMap, k: nat)
    requires JoinPlanned(pkg, tables, None) && pkg.hasJoin && k < |pkg.projectColumns|
    ensures NameKnown(pkg, tables, pkg.projectColumns[k])
  {
    assert PairProjected(pkg, tables, pkg.projectColumns[k]);
  }

  lemma JoinMainProjected(p: OddPrime, slotCount: nat, tables: TableMap, stmt: SelectStatement, paramSetId: string,
                          stack: nat)
    requires RunnableJoin(p, slotCount, tables, stmt, paramSetId, stack)
    ensures MainProjected(stmt, tables[stmt.tableName])
  {
    var pkg := PackageFor(p, slotCount, stmt, PlanFor(tables, stmt), tables, paramSetId);
    forall k | 0 <= k < |pkg.projectColumns| && !OfJoined(ScanOf(stmt), pkg.projectColumns[k])
      ensures tables[stmt.tableName].HasColumn(BareName(pkg.projectColumns[k]))
    {
      assert PairProjected(pkg, tables, pkg.projectColumns[k]);
    }
  }

  lemma JoinTreePasses(p: OddPrime, slotCount: nat, tables: TableMap, stmt: SelectStatement, paramSetId: string,
                       stack: nat)
    requires RunnableJoin(p, slotCount, tables, stmt, paramSetId, stack) && stmt.whereClause.Some?
    ensures FilterPasses(PackageFor(p, slotCount, stmt, PlanFor(tables, stmt), tables, paramSetId), tables, stack)
  {
    var pkg := PackageFor(p, slotCount, stmt, PlanFor(tables, stmt), tables, paramSetId);
    assert CarriesPredicate(p, slotCount, stmt.whereClause.value, tables[stmt.tableName], pkg);
    PairTreePasses(p, slotCount, stmt.whereClause.value, pkg, tables, tables[stmt.tableName], stack);
  }

  lemma JoinListsKnown(p: OddPrime, slotCount: nat, tables: TableMap, stmt: SelectStatement, paramSetId: string,
                       stack: nat)
    requires RunnableJoin(p, slotCount, tables, stmt, paramSetId, stack)
    ensures
      var pkg := PackageFor(p, slotCount, stmt, PlanFor(tables, stmt), tables, paramSetId);
      && AllKnown(tables[pkg.tableName], pkg.scanColumns)
      && forall k :: 0 <= k < |pkg.projectColumns| ==> NameKnown(pkg, tables, pkg.projectColumns[k])
  {
    var pkg := PackageFor(p, slotCount, stmt, PlanFor(tables, stmt), tables, paramSetId);
    JoinMainProjected(p, slotCount, tables, stmt, paramSetId, stack);
    ScanCheckExact(stmt, tables[stmt.tableName]);
    forall k | 0 <= k < |pkg.projectColumns|
      ensures NameKnown(pkg, tables, pkg.projectColumns[k])
    {
      JoinNamesKnown(pkg, tables, k);
    }
  }

  /** The validator accepts a planned join. */
  lemma JoinAcceptedByServer(p: OddPrime, slotCount: nat, tables: TableMap, stmt: SelectStatement, paramSetId: string,
                             stack: nat)
    requires RunnableJoin(p, slotCount, tables, stmt, paramSetId, stack)
    ensures PackageAccepted(PackageFor(p, slotCount, stmt, PlanFor(tables, stmt), tables, paramSetId), tables,
                            paramSetId, stack)
  {
    JoinListsKnown(p, slotCount, tables, stmt, paramSetId, stack);
    if stmt.whereClause.Some? {
      JoinTreePasses(p, slotCount, tables, stmt, paramSetId, stack);
    }
    PackagePasses(PackageFor(p, slotCount, stmt, PlanFor(tables, stmt), tables, paramSetId), tables, paramSetId, stack);
  }

  lemma CarriedMeansJoin(tables: TableMap, stmt: SelectStatement, pkg: QueryPackage, paramSetId: string)
    requires StatementAccepted(tables, stmt) && |stmt.joins| == 1 && Plannable(stmt)
    requires CarriesPlan(pkg, PlanFor(tables, stmt), paramSetId) && JoinPlanned(pkg, tables, stmt.whereClause)
    ensures MeansJoin(tables, stmt, pkg)
  {
    assert JoinAccepted(AllScopes(tables, stmt), stmt.joins[0].condition);
  }

  lemma StatementMeansJoin(p: OddPrime, slotCount: nat, tables: TableMap, stmt: SelectStatement, paramSetId: string,
                           stack: nat)
    requires JoinStatement(p, slotCount, tables, stmt, paramSetId, stack)
    ensures MeansJoin(tables, stmt, PackageFor(p, slotCount, stmt, PlanFor(tables, stmt), tables, paramSetId))
  {
    var pkg := PackageFor(p, slotCount, stmt, PlanFor(tables, stmt), tables, paramSetId);
    assert CarriesPlan(pkg, PlanFor(tables, stmt), paramSetId);
    CarriedMeansJoin(tables, stmt, pkg, paramSetId);
  }

  lemma JoinBecomesMeant(p: OddPrime, slotCount: nat, tables: TableMap, storage: Storage, stmt: SelectStatement,
                         ls: seq<Row>, rs: seq<Row>, paramSetId: string, stack: nat)
    requires JoinStored(p, slotCount, tables, storage, stmt, ls, rs, paramSetId, stack)
    ensures
      var pkg := PackageFor(p, slotCount, stmt, PlanFor(tables, stmt), tables, paramSetId);
      && FilterOf(pkg, stack).Ok?
      && JoinMeant(p, slotCount, pkg, tables, stmt.whereClause, FilterOf(pkg, stack).value, storage[pkg.tableName],
                   storage[pkg.joinedTableName], ls, rs)
  {
    var pkg := PackageFor(p, slotCount, stmt, PlanFor(tables, stmt), tables, paramSetId);
    JoinRunnable(p, slotCount, tables, stmt, paramSetId, stack);
    JoinFilterRebuilt(p, slotCount, tables, stmt, paramSetId, stack);
    if stmt.whereClause.Some? && !UsesJoined(pkg) {
      HoistedNames(p, slotCount, tables, stmt, paramSetId, stack);
    }
  }

  /** Execution of a join modulo p: all pairs, filtered and projected, sorted by the
      integer columns of ORDER BY, limited. */
  function ZpJoin(p: OddPrime, pkg: QueryPackage, tables: TableMap, stmt: SelectStatement, ls: seq<Row>, rs: seq<Row>)
    : seq<ResultRow>
    requires AllProjected(pkg, tables) && Projectable(ResultTable(pkg, tables), pkg.projectColumns)
    requires IsPredicate(PairCondition(pkg, stmt.whereClause), ResultTable(pkg, tables))
  {
    var schema, rows := ResultTable(pkg, tables), JoinedRows(pkg, stmt.whereClause, ls, rs);
    SortAndLimit(ZpRows(p, Some(PairCondition(pkg, stmt.whereClause)), schema, pkg.projectColumns, rows, |rows|),
                 Present(stmt.orderBy, IntNames(schema, pkg.projectColumns)), stmt.limitCount)
  }

  /** What the server does with the package: it accepts it and can execute it. */
  ghost predicate JoinRuns(pkg: QueryPackage, tables: TableMap, storage: Storage, paramSetId: string, stack: nat) {
    && PackageAccepted(pkg, tables, paramSetId, stack)
    && JoinQualified(pkg) && FilterOf(pkg, stack).Ok?
    && pkg.tableName in storage && pkg.joinedTableName in storage
    && var lefts, rights := storage[pkg.tableName], storage[pkg.joinedTableName];
    && LeftsFine(pkg, tables, FilterOf(pkg, stack).value, LeftKey(pkg), lefts)
    && PairsFine(pkg, tables, FilterOf(pkg, stack).value, RightKey(pkg), Pairs(lefts, rights, |lefts|))
  }

  ghost predicate JoinBatches(p: OddPrime, pkg: QueryPackage, tables: TableMap, storage: Storage, stack: nat,
                              batches: seq<ResultBatch>)
    requires JoinQualified(pkg) && FilterOf(pkg, stack).Ok?
    requires pkg.tableName in storage && pkg.joinedTableName in storage
  {
    var lefts, rights := storage[pkg.tableName], storage[pkg.joinedTableName];
    ArePairBatches(p, pkg, tables, FilterOf(pkg, stack).value, RightKey(pkg), Pairs(lefts, rights, |lefts|), batches)
  }

  lemma RunnableJoinRuns(p: OddPrime, slotCount: nat, tables: TableMap, storage: Storage, stmt: SelectStatement,
                         ls: seq<Row>, rs: seq<Row>, paramSetId: string, stack: nat)
    requires slotCount >= 1 && RunnableJoin(p, slotCount, tables, stmt, paramSetId, stack)
    requires BothStored(p, tables, storage, stmt, ls, rs)
    ensures JoinRuns(PackageFor(p, slotCount, stmt, PlanFor(tables, stmt), tables, paramSetId), tables, storage,
                     paramSetId, stack)
  {
    var pkg := PackageFor(p, slotCount, stmt, PlanFor(tables, stmt), tables, paramSetId);
    var lefts, rights := storage[pkg.tableName], storage[pkg.joinedTableName];
    JoinAcceptedByServer(p, slotCount, tables, stmt, paramSetId, stack);
    JoinFilterRebuilt(p, slotCount, tables, stmt, paramSetId, stack);
    if stmt.whereClause.None? {
      JoinExecutable(p, slotCount, pkg, tables, None, None, lefts, rights, ls, rs);
    } else {
      var e, schema := stmt.whereClause.value, tables[stmt.tableName];
      PairCompiles(pkg, tables, e, schema);
      if !UsesJoined(pkg) {
        HoistedNames(p, slotCount, tables, stmt, paramSetId, stack);
      }
      FilteredExecutable(p, slotCount, pkg, tables, e, schema, lefts, rights, ls, rs);
    }
  }

  lemma StoredJoinRuns(p: OddPrime, slotCount: nat, tables: TableMap, storage: Storage, stmt: SelectStatement,
                       ls: seq<Row>, rs: seq<Row>, paramSetId: string, stack: nat)
    requires JoinStored(p, slotCount, tables, storage, stmt, ls, rs, paramSetId, stack)
    ensures JoinRuns(PackageFor(p, slotCount, stmt, PlanFor(tables, stmt), tables, paramSetId), tables, storage,
                     paramSetId, stack)
  {
    JoinRunnable(p, slotCount, tables, stmt, paramSetId, stack);
    RunnableJoinRuns(p, slotCount, tables, storage, stmt, ls, rs, paramSetId, stack);
  }

  /** Whole-query refinement for joins with no range condition: the server accepts and
      executes the package, and its decoded batches, sorted and limited, are the join
      modulo p. */
  lemma ZpJoinCorrect(p: OddPrime, slotCount: nat, tables: TableMap, storage: Storage, stmt: SelectStatement,
                      ls: seq<Row>, rs: seq<Row>, paramSetId: string, stack: nat, batches: seq<ResultBatch>)
    requires ZpJoinMeant(p, slotCount, tables, storage, stmt, ls, rs, paramSetId, stack)
    ensures
      var pkg := PackageFor(p, slotCount, stmt, PlanFor(tables, stmt), tables, paramSetId);
      && JoinRuns(pkg, tables, storage, paramSetId, stack)
      && (JoinBatches(p, pkg, tables, storage, stack, batches) ==>
            ResultIs(DecodeFirst(batches, |batches|), stmt, ZpJoin(p, pkg, tables, stmt, ls, rs),
                     IntNames(ResultTable(pkg, tables), pkg.projectColumns)))
  {
    var pkg := PackageFor(p, slotCount, stmt, PlanFor(tables, stmt), tables, paramSetId);
    StoredJoinRuns(p, slotCount, tables, storage, stmt, ls, rs, paramSetId, stack);
    JoinBecomesMeant(p, slotCount, tables, storage, stmt, ls, rs, paramSetId, stack);
    if JoinBatches(p, pkg, tables, storage, stack, batches) {
      JoinCorrect(p, slotCount, pkg, tables, stmt.whereClause, FilterOf(pkg, stack).value, storage[pkg.tableName],
                  storage[pkg.joinedTableName], ls, rs, RightKey(pkg), batches);
      JoinSorted(p, pkg, tables, stmt, ls, rs);
    }
  }

  lemma JoinSorted(p: OddPrime, pkg: QueryPackage, tables: TableMap, stmt: SelectStatement, ls: seq<Row>, rs: seq<Row>)
    requires AllProjected(pkg, tables) && Projectable(ResultTable(pkg, tables), pkg.projectColumns)
    requires IsPredicate(PairCondition(pkg, stmt.whereClause), ResultTable(pkg, tables))
    ensures
      var condition, schema := Some(PairCondition(pkg, stmt.whereClause)), ResultTable(pkg, tables);
      var rows := JoinedRows(pkg, stmt.whereClause, ls, rs);
      ResultIs(Ok(ZpRows(p, condition, schema, pkg.projectColumns, rows, |rows|)), stmt,
               ZpJoin(p, pkg, tables, stmt, ls, rs), IntNames(schema, pkg.projectColumns))
  {
    var condition, schema := Some(PairCondition(pkg, stmt.whereClause)), ResultTable(pkg, tables);
    var rows := JoinedRows(pkg, stmt.whereClause, ls, rs);
    ZpRowsKeys(p, condition, schema, pkg.projectColumns, rows, |rows|);
    SortedByIntegers(stmt, ZpRows(p, condition, schema, pkg.projectColumns, rows, |rows|),
                     IntNames(schema, pkg.projectColumns));
  }

  /** On pairs that meet its conditions, that is the plaintext join of the statement. */
  lemma JoinMeantInRange(p: OddPrime, slotCount: nat, tables: TableMap, storage: Storage, stmt: SelectStatement,
                         ls: seq<Row>, rs: seq<Row>, paramSetId: string, stack: nat)
    requires JoinQueryMeant(p, slotCount, tables, storage, stmt, ls, rs, paramSetId, stack)
    ensures ZpJoinMeant(p, slotCount, tables, storage, stmt, ls, rs, paramSetId, stack)
    ensures
      var pkg := PackageFor(p, slotCount, stmt, PlanFor(tables, stmt), tables, paramSetId);
      ZpJoin(p, pkg, tables, stmt, ls, rs) == PlainJoin(tables, stmt, ls, rs)
  {
    var pkg := PackageFor(p, slotCount, stmt, PlanFor(tables, stmt), tables, paramSetId);
    StatementMeansJoin(p, slotCount, tables, stmt, paramSetId, stack);
    MeantPairs(p, pkg, tables, stmt, ls, rs);
  }

  lemma MeantPairs(p: OddPrime, pkg: QueryPackage, tables: TableMap, stmt: SelectStatement, ls: seq<Row>, rs: seq<Row>)
    requires MeansJoin(tables, stmt, pkg)
    requires JoinedAllFine(p, pkg, tables, stmt.whereClause, JoinedRows(pkg, stmt.whereClause, ls, rs))
    ensures JoinedAllZpFine(p, pkg, tables, stmt.whereClause, JoinedRows(pkg, stmt.whereClause, ls, rs))
    ensures ZpJoin(p, pkg, tables, stmt, ls, rs) == PlainJoin(tables, stmt, ls, rs)
  {
    JoinInRange(p, pkg, tables, stmt.whereClause, JoinedRows(pkg, stmt.whereClause, ls, rs));
    PairsArePlainJoin(tables, stmt, pkg, ls, rs);
    IntNamesMeant(tables, stmt, pkg);
  }

  /** Whole-query refinement for joins against plaintext execution. */
  lemma JoinQueryCorrect(p: OddPrime, slotCount: nat, tables: TableMap, storage: Storage, stmt: SelectStatement,
                         ls: seq<Row>, rs: seq<Row>, paramSetId: string, stack: nat, batches: seq<ResultBatch>)
    requires JoinQueryMeant(p, slotCount, tables, storage, stmt, ls, rs, paramSetId, stack)
    ensures
      var pkg := PackageFor(p, slotCount, stmt, PlanFor(tables, stmt), tables, paramSetId);
      && JoinRuns(pkg, tables, storage, paramSetId, stack)
      && (JoinBatches(p, pkg, tables, storage, stack, batches) ==>
            ResultIs(DecodeFirst(batches, |batches|), stmt, PlainJoin(tables, stmt, ls, rs),
                     IntNames(ResultTable(pkg, tables), pkg.projectColumns)))
  {
    JoinMeantInRange(p, slotCount, tables, storage, stmt, ls, rs, paramSetId, stack);
    ZpJoinCorrect(p, slotCount, tables, storage, stmt, ls, rs, paramSetId, stack, batches);
  }
}
