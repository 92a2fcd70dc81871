// Whole queries over one table: encrypting, executing and decoding against plaintext
// execution, whatever the split into chunks.

module Pipeline {
  import opened Common
  import opened Catalog
  import opened Ast
  import opened PrimeField
  import opened Circuit
  import opened Package
  import opened Encryptor
  import opened Rebuild
  import opened Plain
  import opened Compiler
  import opened Semantic
  import opened Planner
  import opened QueryEncryption
  import opened Validator
  import opened Execution
  import opened Decoder
  import opened SortLimit
  import opened TableQuery
  import opened RowDecode
  import opened WellTyped

  // ---- A table stored in chunks ----

  ghost predicate TableStored(p: OddPrime, slotCount: nat, schema: TableSchema, chunks: seq<StoredChunk>,
                              rowss: seq<seq<Row>>)
  {
    && |chunks| == |rowss|
    && forall k :: 0 <= k < |chunks| ==> Stores(p, schema, chunks[k], rowss[k]) && |rowss[k]| <= slotCount
  }

  ghost predicate AllRowsFine(p: OddPrime, where: Option<Expr>, schema: TableSchema, names: seq<string>,
                              rows: seq<Row>)
    requires where.Some? ==> IsPredicate(where.value, schema)
    requires Projectable(schema, names)
  {
    forall i :: 0 <= i < |rows| ==> RowFine(p, where, schema, names, rows[i])
  }

  ghost predicate AllRowsZpFine(p: OddPrime, where: Option<Expr>, schema: TableSchema, names: seq<string>,
                                rows: seq<Row>)
    requires where.Some? ==> IsPredicate(where.value, schema)
    requires Projectable(schema, names)
  {
    forall i :: 0 <= i < |rows| ==> ZpFine(p, where, schema, names, rows[i])
  }

  ghost predicate AllChunksZpFine(p: OddPrime, where: Option<Expr>, schema: TableSchema, names: seq<string>,
                                  rowss: seq<seq<Row>>)
    requires where.Some? ==> IsPredicate(where.value, schema)
    requires Projectable(schema, names)
  {
    forall k :: 0 <= k < |rowss| ==> AllRowsZpFine(p, where, schema, names, rowss[k])
  }

  ghost predicate AllChunksFine(p: OddPrime, where: Option<Expr>, schema: TableSchema, names: seq<string>,
                                rowss: seq<seq<Row>>)
    requires where.Some? ==> IsPredicate(where.value, schema)
    requires Projectable(schema, names)
  {
    forall k :: 0 <= k < |rowss| ==> AllRowsFine(p, where, schema, names, rowss[k])
  }

  lemma TableExecutable(p: OddPrime, slotCount: nat, schema: TableSchema, pkg: QueryPackage, where: Option<Expr>,
                        filter: Option<Circuit>, chunks: seq<StoredChunk>, rowss: seq<seq<Row>>)
    requires Scannable(schema, pkg, where) && FilterFor(p, slotCount, where, schema, filter)
    requires TableStored(p, slotCount, schema, chunks, rowss)
    ensures AllExecutable(schema, pkg, filter, chunks)
  {
    forall k | 0 <= k < |chunks|
      ensures Executable(schema, pkg, filter, chunks[k])
    {
      ChunkExecutable(p, slotCount, schema, pkg, where, filter, chunks[k], rowss[k]);
    }
  }

  lemma ChunkRows(p: OddPrime, slotCount: nat, schema: TableSchema, pkg: QueryPackage, where: Option<Expr>,
                  filter: Option<Circuit>, chunks: seq<StoredChunk>, rowss: seq<seq<Row>>, batches: seq<ResultBatch>,
                  k: nat)
    requires where.Some? ==> IsPredicate(where.value, schema)
    requires Planned(schema, pkg, where) && FilterFor(p, slotCount, where, schema, filter)
    requires TableStored(p, slotCount, schema, chunks, rowss)
    requires AllChunksZpFine(p, where, schema, pkg.projectColumns, rowss)
    requires AreBatches(p, schema, pkg, filter, chunks, batches) && k < |chunks|
    ensures DecodeBatch(batches[k]) == Ok(ZpRows(p, where, schema, pkg.projectColumns, rowss[k], |rowss[k]|))
  {
    assert AllRowsZpFine(p, where, schema, pkg.projectColumns, rowss[k]);
    assert IsBatch(p, schema, pkg, filter, chunks[k], k, batches[k]);
    ChunkDecodes(p, slotCount, schema, pkg, where, filter, chunks[k], rowss[k], k);
  }

  /** Chunking does not matter, whatever the values: for any split of a table into
      chunks, the batches decode to the modular filter and projection of the unsplit
      table. */
  lemma ScanCorrect(p: OddPrime, slotCount: nat, schema: TableSchema, pkg: QueryPackage, where: Option<Expr>,
                    filter: Option<Circuit>, chunks: seq<StoredChunk>, rowss: seq<seq<Row>>, batches: seq<ResultBatch>)
    requires where.Some? ==> IsPredicate(where.value, schema)
    requires Planned(schema, pkg, where) && FilterFor(p, slotCount, where, schema, filter)
    requires TableStored(p, slotCount, schema, chunks, rowss)
    requires AllChunksZpFine(p, where, schema, pkg.projectColumns, rowss)
    requires AreBatches(p, schema, pkg, filter, chunks, batches)
    ensures
      var rows := Flatten(rowss, |rowss|);
      DecodeFirst(batches, |batches|) == Ok(ZpRows(p, where, schema, pkg.projectColumns, rows, |rows|))
  {
    forall k | 0 <= k < |rowss|
      ensures ChunkDecoded(p, where, schema, pkg.projectColumns, rowss[k], batches[k])
    {
      ChunkRows(p, slotCount, schema, pkg, where, filter, chunks, rowss, batches, k);
    }
    BatchesDecode(p, where, schema, pkg.projectColumns, rowss, batches);
  }

  /** Rows of a table are rows of its chunks. */
  lemma {:induction false} FlattenedFine(p: OddPrime, where: Option<Expr>, schema: TableSchema, names: seq<string>,
                                         rowss: seq<seq<Row>>, k: nat)
    requires where.Some? ==> IsPredicate(where.value, schema)
    requires Projectable(schema, names) && AllChunksFine(p, where, schema, names, rowss) && k <= |rowss|
    ensures AllRowsFine(p, where, schema, names, Flatten(rowss, k))
  {
    if k > 0 {
      FlattenedFine(p, where, schema, names, rowss, k - 1);
      assert AllRowsFine(p, where, schema, names, rowss[k - 1]);
    }
  }

  /** Rows that meet the conditions of plaintext execution meet those of execution
      modulo p, and the two agree. */
  lemma ScanInRange(p: OddPrime, where: Option<Expr>, schema: TableSchema, names: seq<string>, rowss: seq<seq<Row>>)
    requires where.Some? ==> IsPredicate(where.value, schema)
    requires Projectable(schema, names) && AllChunksFine(p, where, schema, names, rowss)
    ensures AllChunksZpFine(p, where, schema, names, rowss)
    ensures
      var rows := Flatten(rowss, |rowss|);
      ZpRows(p, where, schema, names, rows, |rows|) == PlainRows(where, schema, names, rows, |rows|)
  {
    forall k | 0 <= k < |rowss|
      ensures AllRowsZpFine(p, where, schema, names, rowss[k])
    {
      assert AllRowsFine(p, where, schema, names, rowss[k]);
      forall i | 0 <= i < |rowss[k]|
        ensures ZpFine(p, where, schema, names, rowss[k][i])
      {
        FineRow(p, where, schema, names, rowss[k][i]);
      }
    }
    FlattenedFine(p, where, schema, names, rowss, |rowss|);
    ZpRowsInRange(p, where, schema, names, Flatten(rowss, |rowss|), |Flatten(rowss, |rowss|)|);
  }

  // ---- Rows of one query have the same keys ----

  function IntNames(schema: TableSchema, names: seq<string>): set<string>
    requires Projectable(schema, names)
  {
    set c | c in names && schema.Column(c).kind != STRING
  }

  lemma {:induction false} ZpRowsKeys(p: OddPrime, where: Option<Expr>, schema: TableSchema, names: seq<string>,
                                      rows: seq<Row>, k: nat)
    requires where.Some? ==> IsPredicate(where.value, schema)
    requires Projectable(schema, names) && k <= |rows|
    ensures SameKeys(ZpRows(p, where, schema, names, rows, k), IntNames(schema, names))
  {
    if k > 0 {
      ZpRowsKeys(p, where, schema, names, rows, k - 1);
      assert ZpProjectRow(p, schema, names, rows[k - 1]).values.Keys == IntNames(schema, names);
    }
  }

  // ---- ORDER BY columns of any type are accepted ----

  lemma {:induction false} AcceptedWhatever(tables: TableMap, stmt: SelectStatement, orderBy: seq<OrderByColumn>,
                                            e: Expr)
    requires TablesKnown(tables, stmt) && ExprAccepted(tables, stmt, e)
    ensures ExprAccepted(tables, stmt.(orderBy := orderBy), e)
  {
    match e
    case Not(l) => AcceptedWhatever(tables, stmt, orderBy, l);
    case And(l, r) => AcceptedWhatever(tables, stmt, orderBy, l); AcceptedWhatever(tables, stmt, orderBy, r);
    case Or(l, r) => AcceptedWhatever(tables, stmt, orderBy, l); AcceptedWhatever(tables, stmt, orderBy, r);
    case _ =>
  }

  /** A query that passes every stage still does when it is also ordered by any column
      of its table, strings included. */
  lemma OrderByAnyColumn(tables: TableMap, stmt: SelectStatement, column: OrderByColumn)
    requires GoodQuery(tables, stmt) && tables[stmt.tableName].HasColumn(column.columnName)
    ensures GoodQuery(tables, stmt.(orderBy := stmt.orderBy + [column]))
  {
    var ordered := stmt.(orderBy := stmt.orderBy + [column]);
    var schema, scopes := tables[stmt.tableName], AllScopes(tables, ordered);
    assert schema.Column(column.columnName) in schema.columns;
    assert scopes == AllScopes(tables, stmt);
    SingleScope(tables, ordered, column.columnName);
    forall k | 0 <= k < |OrderNames(ordered.orderBy)|
      ensures Resolves(scopes, OrderNames(ordered.orderBy)[k]) && !Qualified(OrderNames(ordered.orderBy)[k])
    {
      if k < |stmt.orderBy| {
        assert OrderNames(ordered.orderBy)[k] == OrderNames(stmt.orderBy)[k];
      }
    }
    if stmt.whereClause.Some? {
      AcceptedWhatever(tables, stmt, ordered.orderBy, stmt.whereClause.value);
    }
  }

  // ---- From a statement to its filter ----

  /** The predicate fits 32-bit indices and the server's stack. */
  predicate Fits(where: Option<Expr>, schema: TableSchema, stack: nat)
    requires WhereCompilable(where, schema)
  {
    where.Some? ==>
      && NodeCount(where.value) <= UINT32_MAX
      && LiteralCount(where.value, schema) <= UINT32_MAX
      && Height(where.value) <= stack
  }

  function FilterCircuit(p: OddPrime, slotCount: nat, where: Option<Expr>, schema: TableSchema): Option<Circuit>
    requires where.Some? ==> Compilable(where.value, schema) && WidthsPositive(where.value, schema)
  {
    if where.None? then None else Some(Translate(p, slotCount, where.value, schema))
  }

  lemma FilterRebuilt(p: OddPrime, slotCount: nat, stmt: SelectStatement, plan: PhysicalPlan, tables: TableMap,
                      paramSetId: string, stack: nat)
    requires Encryptable(stmt, plan, tables) && plan.tableName in tables
    requires
      var schema := tables[plan.tableName];
      && (stmt.whereClause.Some? ==> WidthsPositive(stmt.whereClause.value, schema))
      && Fits(stmt.whereClause, schema, stack)
    ensures FilterOf(PackageFor(p, slotCount, stmt, plan, tables, paramSetId), stack) ==
      Ok(FilterCircuit(p, slotCount, stmt.whereClause, tables[plan.tableName]))
  {
    var pkg := PackageFor(p, slotCount, stmt, plan, tables, paramSetId);
    if stmt.whereClause.Some? {
      var e, schema := stmt.whereClause.value, tables[plan.tableName];
      assert CarriesPredicate(p, slotCount, e, schema, pkg);
      RebuildCarried(p, slotCount, e, schema, pkg, stack);
    }
  }

  // ---- Accepted queries are encrypted and validated ----

  ghost predicate GoodQuery(tables: TableMap, stmt: SelectStatement) {
    StatementAccepted(tables, stmt) && SingleTableQuery(tables[stmt.tableName], stmt)
  }

  /** Accepted, unqualified, and with a filter the server can evaluate. */
  ghost predicate RunnableStatement(tables: TableMap, stmt: SelectStatement) {
    StatementAccepted(tables, stmt) && RunnableQuery(tables[stmt.tableName], stmt)
  }

  /** Planning and encrypting such a query does not throw. */
  lemma RunnableEncrypts(tables: TableMap, stmt: SelectStatement)
    requires RunnableStatement(tables, stmt)
    ensures Plannable(stmt) && Encryptable(stmt, PlanFor(tables, stmt), tables)
  {
    var plan := PlanFor(tables, stmt);
    if stmt.whereClause.Some? {
      RunnableCompiles(stmt.whereClause.value, tables[stmt.tableName]);
    }
    forall k | 0 <= k < |plan.projectColumns|
      ensures ProjectedKnown(tables, plan, plan.projectColumns[k])
    {
      ProjectedKnownNames(tables, stmt, plan.projectColumns[k]);
      BareOfUnqualified(plan.projectColumns[k]);
    }
  }

  lemma TreePasses(p: OddPrime, slotCount: nat, e: Expr, pkg: QueryPackage, tables: TableMap, stack: nat)
    requires pkg.tableName in tables && !pkg.hasJoin && PlainSchema(tables[pkg.tableName])
    requires Runnable(e, tables[pkg.tableName]) && Compilable(e, tables[pkg.tableName])
    requires CarriesPredicate(p, slotCount, e, tables[pkg.tableName], pkg) && Height(e) <= stack
    ensures 0 < |pkg.predicateNodes| <= UINT32_MAX
    ensures TreeAccepted(pkg, tables, |pkg.predicateNodes| - 1, stack)
    ensures NoEmptyLiteral(pkg.encryptedLiterals)
  {
    var schema := tables[pkg.tableName];
    WalkExtends(p, slotCount, e, schema, NO_TABLES);
    WalkRepresents(p, slotCount, e, schema, NO_TABLES);
    WalkSerialises(p, slotCount, e, schema, NO_TABLES);
    RepresentedAccepted(p, slotCount, e, schema, pkg, tables, |pkg.predicateNodes| - 1, stack);
  }

  lemma PackagePasses(pkg: QueryPackage, tables: TableMap, paramSetId: string, stack: nat)
    requires pkg.protocolVersion == 2 && pkg.paramSetId == paramSetId && pkg.tableName in tables
    requires AllKnown(tables[pkg.tableName], pkg.scanColumns)
    requires forall k :: 0 <= k < |pkg.projectColumns| ==> NameKnown(pkg, tables, pkg.projectColumns[k])
    requires NoEmptyLiteral(pkg.encryptedLiterals) && |pkg.predicateNodes| <= UINT32_MAX
    requires pkg.predicateNodes != [] ==> TreeAccepted(pkg, tables, |pkg.predicateNodes| - 1, stack)
    ensures PackageAccepted(pkg, tables, paramSetId, stack)
  {
  }

  /** Such queries are planned, encrypted without a throw, accepted by the server's
      validator and rebuilt there. */
  lemma RunnableQueriesPass(p: OddPrime, slotCount: nat, tables: TableMap, stmt: SelectStatement, paramSetId: string,
                            stack: nat)
    requires RunnableStatement(tables, stmt)
    requires WhereCompilable(stmt.whereClause, tables[stmt.tableName])
    requires Fits(stmt.whereClause, tables[stmt.tableName], stack)
    ensures Plannable(stmt) && Encryptable(stmt, PlanFor(tables, stmt), tables)
    ensures
      var pkg := PackageFor(p, slotCount, stmt, PlanFor(tables, stmt), tables, paramSetId);
      && PackageAccepted(pkg, tables, paramSetId, stack)
      && FilterOf(pkg, stack).Ok?
      && FilterFor(p, slotCount, stmt.whereClause, tables[stmt.tableName], FilterOf(pkg, stack).value)
      && Scannable(tables[stmt.tableName], pkg, stmt.whereClause)
      && AllKnown(tables[stmt.tableName], pkg.projectColumns)
  {
    RunnableEncrypts(tables, stmt);
    var schema, plan := tables[stmt.tableName], PlanFor(tables, stmt);
    var pkg := PackageFor(p, slotCount, stmt, plan, tables, paramSetId);
    RunnablePlanned(tables, stmt, pkg);
    forall k | 0 <= k < |pkg.projectColumns|
      ensures NameKnown(pkg, tables, pkg.projectColumns[k])
    {
      BareOfUnqualified(pkg.projectColumns[k]);
    }
    if stmt.whereClause.Some? {
      RunnableCompiles(stmt.whereClause.value, schema);
      assert CarriesPredicate(p, slotCount, stmt.whereClause.value, schema, pkg);
      TreePasses(p, slotCount, stmt.whereClause.value, pkg, tables, stack);
    }
    FilterRebuilt(p, slotCount, stmt, plan, tables, paramSetId, stack);
    PackagePasses(pkg, tables, paramSetId, stack);
  }

  /** Well-typed queries do not go wrong: what the analyzer accepts, under the shape
      conditions, passes every stage. */
  lemma WellTypedQueriesPass(p: OddPrime, slotCount: nat, tables: TableMap, stmt: SelectStatement, paramSetId: string,
                             stack: nat)
    requires GoodQuery(tables, stmt)
    requires WhereCompilable(stmt.whereClause, tables[stmt.tableName])
    requires Fits(stmt.whereClause, tables[stmt.tableName], stack)
    ensures Plannable(stmt) && Encryptable(stmt, PlanFor(tables, stmt), tables)
    ensures
      var pkg := PackageFor(p, slotCount, stmt, PlanFor(tables, stmt), tables, paramSetId);
      && PackageAccepted(pkg, tables, paramSetId, stack)
      && FilterOf(pkg, stack).Ok?
      && FilterFor(p, slotCount, stmt.whereClause, tables[stmt.tableName], FilterOf(pkg, stack).value)
      && Planned(tables[stmt.tableName], pkg, stmt.whereClause)
  {
    SingleTableRunnable(tables, stmt);
    RunnableQueriesPass(p, slotCount, tables, stmt, paramSetId, stack);
    AcceptedPlanned(tables, stmt, PackageFor(p, slotCount, stmt, PlanFor(tables, stmt), tables, paramSetId));
  }

  // ---- Plaintext execution of a statement ----

  /** Filter, project, sort and limit over the whole table. Rows are sorted by the
      integer columns of ORDER BY; entries on string columns are passed over. */
  function PlainResult(stmt: SelectStatement, schema: TableSchema, rows: seq<Row>): seq<ResultRow>
    requires stmt.whereClause.Some? ==> IsPredicate(stmt.whereClause.value, schema)
    requires Projectable(schema, Projected(stmt, schema))
  {
    SortAndLimit(PlainRows(stmt.whereClause, schema, Projected(stmt, schema), rows, |rows|),
                 Present(stmt.orderBy, IntNames(schema, Projected(stmt, schema))), stmt.limitCount)
  }

  /** Execution modulo p: the same with the modular filter and projection. */
  function ZpResult(p: OddPrime, stmt: SelectStatement, schema: TableSchema, rows: seq<Row>): seq<ResultRow>
    requires stmt.whereClause.Some? ==> IsPredicate(stmt.whereClause.value, schema)
    requires Projectable(schema, Projected(stmt, schema))
  {
    SortAndLimit(ZpRows(p, stmt.whereClause, schema, Projected(stmt, schema), rows, |rows|),
                 Present(stmt.orderBy, IntNames(schema, Projected(stmt, schema))), stmt.limitCount)
  }

  /** A query over a table stored in some chunking. Types and projectability follow from
      the first condition; conditions on rows need them to be well defined. */
  ghost predicate QueryStored(p: OddPrime, slotCount: nat, tables: TableMap, storage: Storage, stmt: SelectStatement,
                              rowss: seq<seq<Row>>, stack: nat)
  {
    && GoodQuery(tables, stmt)
    && var schema := tables[stmt.tableName];
    && WhereCompilable(stmt.whereClause, schema) && Fits(stmt.whereClause, schema, stack)
    && (stmt.whereClause.Some? ==> IsPredicate(stmt.whereClause.value, schema))
    && Projectable(schema, Projected(stmt, schema))
    && stmt.tableName in storage && TableStored(p, slotCount, schema, storage[stmt.tableName], rowss)
  }

  /** Whose rows meet the conditions of plaintext execution. */
  ghost predicate QueryMeant(p: OddPrime, slotCount: nat, tables: TableMap, storage: Storage, stmt: SelectStatement,
                             rowss: seq<seq<Row>>, stack: nat)
  {
    && QueryStored(p, slotCount, tables, storage, stmt, rowss, stack)
    && AllChunksFine(p, stmt.whereClause, tables[stmt.tableName], Projected(stmt, tables[stmt.tableName]), rowss)
  }

  /** Whose kept rows have strings the ASCII decoder can carry: no condition on any
      integer, nor on rows that the filter drops. */
  ghost predicate ZpQueryMeant(p: OddPrime, slotCount: nat, tables: TableMap, storage: Storage, stmt: SelectStatement,
                               rowss: seq<seq<Row>>, stack: nat)
  {
    && QueryStored(p, slotCount, tables, storage, stmt, rowss, stack)
    && AllChunksZpFine(p, stmt.whereClause, tables[stmt.tableName], Projected(stmt, tables[stmt.tableName]), rowss)
  }

  /** Whole-query refinement with no range condition, independent of chunking. The
      server accepts and executes the package of the query; the concatenated decoded
      batches, sorted and limited, are execution modulo p on the unsplit table; and the
      ORDER BY comparator is applied to rows of one key set, so the result is the prefix
      of a stable sort by the integer columns of ORDER BY. */
  lemma ZpQueryCorrect(p: OddPrime, slotCount: nat, tables: TableMap, storage: Storage, stmt: SelectStatement,
                       rowss: seq<seq<Row>>, paramSetId: string, stack: nat, batches: seq<ResultBatch>)
    requires ZpQueryMeant(p, slotCount, tables, storage, stmt, rowss, stack)
    ensures Plannable(stmt) && Encryptable(stmt, PlanFor(tables, stmt), tables)
    ensures
      var schema := tables[stmt.tableName];
      var pkg := PackageFor(p, slotCount, stmt, PlanFor(tables, stmt), tables, paramSetId);
      && PackageAccepted(pkg, tables, paramSetId, stack)
      && AllKnown(schema, pkg.scanColumns) && AllKnown(schema, pkg.projectColumns)
      && FilterOf(pkg, stack).Ok?
      && AllExecutable(schema, pkg, FilterOf(pkg, stack).value, storage[stmt.tableName])
      && (AreBatches(p, schema, pkg, FilterOf(pkg, stack).value, storage[stmt.tableName], batches) ==>
            ResultIs(DecodeFirst(batches, |batches|), stmt, ZpResult(p, stmt, schema, Flatten(rowss, |rowss|)),
                     IntNames(schema, Projected(stmt, schema))))
  {
    WellTypedQueriesPass(p, slotCount, tables, stmt, paramSetId, stack);
    var schema := tables[stmt.tableName];
    var pkg := PackageFor(p, slotCount, stmt, PlanFor(tables, stmt), tables, paramSetId);
    var filter, chunks := FilterOf(pkg, stack).value, storage[stmt.tableName];
    AcceptedPlanned(tables, stmt, pkg);
    TableExecutable(p, slotCount, schema, pkg, stmt.whereClause, filter, chunks, rowss);
    if AreBatches(p, schema, pkg, filter, chunks, batches) {
      var rows := Flatten(rowss, |rowss|);
      ScanCorrect(p, slotCount, schema, pkg, stmt.whereClause, filter, chunks, rowss, batches);
      ZpRowsKeys(p, stmt.whereClause, schema, pkg.projectColumns, rows, |rows|);
      SortedByIntegers(stmt, ZpRows(p, stmt.whereClause, schema, pkg.projectColumns, rows, |rows|),
                       IntNames(schema, pkg.projectColumns));
    }
  }

  /** On rows that meet its conditions, that is plaintext execution. */
  lemma MeantInRange(p: OddPrime, slotCount: nat, tables: TableMap, storage: Storage, stmt: SelectStatement,
                     rowss: seq<seq<Row>>, stack: nat)
    requires QueryMeant(p, slotCount, tables, storage, stmt, rowss, stack)
    ensures ZpQueryMeant(p, slotCount, tables, storage, stmt, rowss, stack)
    ensures
      var schema, rows := tables[stmt.tableName], Flatten(rowss, |rowss|);
      ZpResult(p, stmt, schema, rows) == PlainResult(stmt, schema, rows)
  {
    ScanInRange(p, stmt.whereClause, tables[stmt.tableName], Projected(stmt, tables[stmt.tableName]), rowss);
  }

  /** Whole-query refinement against plaintext execution. */
  lemma QueryCorrect(p: OddPrime, slotCount: nat, tables: TableMap, storage: Storage, stmt: SelectStatement,
                     rowss: seq<seq<Row>>, paramSetId: string, stack: nat, batches: seq<ResultBatch>)
    requires QueryMeant(p, slotCount, tables, storage, stmt, rowss, stack)
    ensures Plannable(stmt) && Encryptable(stmt, PlanFor(tables, stmt), tables)
    ensures
      var schema := tables[stmt.tableName];
      var pkg := PackageFor(p, slotCount, stmt, PlanFor(tables, stmt), tables, paramSetId);
      && PackageAccepted(pkg, tables, paramSetId, stack)
      && AllKnown(schema, pkg.scanColumns) && AllKnown(schema, pkg.projectColumns)
      && FilterOf(pkg, stack).Ok?
      && AllExecutable(schema, pkg, FilterOf(pkg, stack).value, storage[stmt.tableName])
      && (AreBatches(p, schema, pkg, FilterOf(pkg, stack).value, storage[stmt.tableName], batches) ==>
            ResultIs(DecodeFirst(batches, |batches|), stmt, PlainResult(stmt, schema, Flatten(rowss, |rowss|)),
                     IntNames(schema, Projected(stmt, schema))))
  {
    MeantInRange(p, slotCount, tables, storage, stmt, rowss, stack);
    ZpQueryCorrect(p, slotCount, tables, storage, stmt, rowss, paramSetId, stack, batches);
  }

  /** On rows of one key set the client sorts by the ORDER BY entries in it. */
  lemma SortedByIntegers(stmt: SelectStatement, rows: seq<ResultRow>, keys: set<string>)
    requires SameKeys(rows, keys)
    ensures SortAndLimit(rows, stmt.orderBy, stmt.limitCount) ==
      SortAndLimit(rows, Present(stmt.orderBy, keys), stmt.limitCount)
  {
    SameKeysCarry(stmt.orderBy, rows, keys);
    OrderByStringsIgnored(stmt.orderBy, keys, rows, stmt.limitCount);
  }

  /** Decoding succeeds on rows of one key set and, sorted and limited, gives that
      result. */
  ghost predicate ResultIs(decoded: Result<seq<ResultRow>>, stmt: SelectStatement, result: seq<ResultRow>,
                           keys: set<string>)
  {
    && decoded.Ok? && SameKeys(decoded.value, keys)
    && SortAndLimit(decoded.value, stmt.orderBy, stmt.limitCount) == result
  }
}
