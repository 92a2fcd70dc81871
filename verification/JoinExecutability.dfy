// Which accepted joins of two tables can be executed. The columns of a pair of rows
// are those of its two tables under their aliases, and only integer ones have a name
// that a predicate can read.

module JoinExecutability {
  import opened Common
  import opened Catalog
  import opened Ast
  import opened PrimeField
  import opened Circuit
  import opened Package
  import opened Encryptor
  import opened Rebuild
  import opened Plain
  import opened Compiler
  import opened Semantic
  import opened QueryEncryption
  import opened Validator
  import opened Execution
  import opened TableQuery
  import opened RowDecode
  import opened WellTyped
  import opened Pipeline
  import opened JoinExecution
  import opened JoinColumns
  import opened JoinQuery
  import opened JoinMeaning
  import opened JoinPipeline
  import opened JoinWellTyped
  import opened Client
  import opened Executability

  // ---- The columns of a pair ----

  /** A column of the table under its alias: under a plain name an integer one. */
  predicate OfAlias(schema: TableSchema, alias: string, x: PhysicalColumn) {
    match x
    case Plain(name) => Qualified(name) && AliasPart(name) == alias && IntColumn(schema, BareName(name))
    case CharAt(_, _) => false
    case AliasedCharAt(_, _, _) => true
  }

  lemma AliasedOf(schema: TableSchema, alias: string, j: nat, k: nat)
    requires DistinctNames(schema.columns) && DotFree(alias) && j < |schema.columns|
    ensures OfAlias(schema, alias, AliasedAt(alias, schema.columns[j], k))
  {
    KeyParts(alias, schema.columns[j].name);
    FirstColumnAt(schema.columns, schema.columns[j].name, j);
  }

  lemma {:induction false} AddedOf(base: Columns, schema: TableSchema, j: nat, alias: string, chunk: StoredChunk,
                                   k: nat, x: PhysicalColumn)
    requires DistinctNames(schema.columns) && DotFree(alias) && j < |schema.columns|
    requires ColumnStored(schema.columns[j], chunk.columns) && k <= PhysicalWidth(schema.columns[j])
    requires x in AddAliased(base, schema.columns[j], alias, chunk, k) && x !in base
    ensures OfAlias(schema, alias, x)
  {
    if k > 0 {
      AliasedOf(schema, alias, j, k - 1);
      if x in AddAliased(base, schema.columns[j], alias, chunk, k - 1) {
        AddedOf(base, schema, j, alias, chunk, k - 1, x);
      }
    }
  }

  lemma {:induction false} WithTableOf(base: Columns, schema: TableSchema, alias: string, chunk: StoredChunk, k: nat,
                                       x: PhysicalColumn)
    requires DistinctNames(schema.columns) && DotFree(alias)
    requires k <= |schema.columns| && FirstAliasable(schema.columns, chunk, k)
    requires x in WithTable(base, schema.columns, alias, chunk, k) && x !in base
    ensures OfAlias(schema, alias, x)
  {
    if k > 0 {
      var before := WithTable(base, schema.columns, alias, chunk, k - 1);
      if x in before {
        WithTableOf(base, schema, alias, chunk, k - 1, x);
      } else {
        AddedOf(before, schema, k - 1, alias, chunk, PhysicalWidth(schema.columns[k - 1]), x);
      }
    }
  }

  /** A column of one of the two tables. */
  predicate OfPair(pkg: QueryPackage, tables: TableMap, x: PhysicalColumn) {
    match x
    case Plain(name) => PairInt(pkg, tables, name)
    case CharAt(_, _) => false
    case AliasedCharAt(_, _, _) => true
  }

  ghost predicate PairOnly(pkg: QueryPackage, tables: TableMap, columns: Columns) {
    forall x :: x in columns ==> OfPair(pkg, tables, x)
  }

  ghost predicate ApartTables(pkg: QueryPackage, tables: TableMap) {
    && AliasesApart(pkg)
    && pkg.tableName in tables && DistinctNames(tables[pkg.tableName].columns)
    && pkg.joinedTableName in tables && DistinctNames(tables[pkg.joinedTableName].columns)
  }

  lemma LeftOnly(pkg: QueryPackage, tables: TableMap, left: StoredChunk)
    requires ApartTables(pkg, tables) && AllAliasable(tables[pkg.tableName].columns, left)
    ensures PairOnly(pkg, tables, LeftColumns(pkg, tables, left))
  {
    var main := tables[pkg.tableName];
    forall x | x in LeftColumns(pkg, tables, left)
      ensures OfPair(pkg, tables, x)
    {
      WithTableOf(map[], main, pkg.tableAlias, left, |main.columns|, x);
    }
  }

  lemma BothOnly(pkg: QueryPackage, tables: TableMap, left: StoredChunk, right: StoredChunk)
    requires ApartTables(pkg, tables) && PairAliasable(pkg, tables, left, right)
    ensures PairOnly(pkg, tables, PairColumns(pkg, tables, left, right))
  {
    var joined := tables[pkg.joinedTableName];
    LeftOnly(pkg, tables, left);
    forall x | x in PairColumns(pkg, tables, left, right)
      ensures OfPair(pkg, tables, x)
    {
      if x !in LeftColumns(pkg, tables, left) {
        WithTableOf(LeftColumns(pkg, tables, left), joined, pkg.joinedTableAlias, right, |joined.columns|, x);
      }
    }
  }

  // ---- What an executed join reads ----

  /** A filter that can be evaluated over columns of the pair is runnable. */
  lemma {:induction false} EvaluableReadsPair(p: OddPrime, slotCount: nat, pkg: QueryPackage, tables: TableMap, e: Expr,
                                              schema: TableSchema, columns: Columns, n: nat)
    requires Compilable(e, schema) && WidthsPositive(e, schema) && PairOnly(pkg, tables, columns)
    requires Evaluable(Translate(p, slotCount, e, schema), columns, n)
    ensures PairRunnable(pkg, tables, e)
  {
    if IsBinary(e) {
      BinaryEvaluable(BinaryKind(e), Translate(p, slotCount, e.left, schema), Translate(p, slotCount, e.right, schema),
                      columns, n);
      EvaluableReadsPair(p, slotCount, pkg, tables, e.left, schema, columns, n);
      EvaluableReadsPair(p, slotCount, pkg, tables, e.right, schema, columns, n);
    } else if e.Not? {
      EvaluableReadsPair(p, slotCount, pkg, tables, e.left, schema, columns, n);
    } else if e.Compare? {
      StringTestReads(p, slotCount, e.op, StringColumn(e.left, e.right), StringOperand(e.left, e.right),
                      StringWidth(e.left, e.right, schema), columns, n);
      assert false;
    } else if e.ColumnRef? {
      assert OfPair(pkg, tables, Plain(e.name));
    }
  }

  lemma FilterReadsPair(p: OddPrime, slotCount: nat, pkg: QueryPackage, tables: TableMap, e: Expr, schema: TableSchema,
                        left: StoredChunk, right: StoredChunk, leftKey: string, rightKey: string)
    requires ApartTables(pkg, tables) && Compilable(e, schema) && WidthsPositive(e, schema)
    requires LeftFine(pkg, tables, Some(Translate(p, slotCount, e, schema)), leftKey, left)
    requires PairFine(pkg, tables, Some(Translate(p, slotCount, e, schema)), rightKey, left, right)
    ensures PairRunnable(pkg, tables, e)
  {
    if UsesJoined(pkg) {
      BothOnly(pkg, tables, left, right);
      EvaluableReadsPair(p, slotCount, pkg, tables, e, schema, PairColumns(pkg, tables, left, right), 1);
    } else {
      LeftOnly(pkg, tables, left);
      EvaluableReadsPair(p, slotCount, pkg, tables, e, schema, LeftColumns(pkg, tables, left), 1);
    }
  }

  lemma StartsWithAlias(name: string, alias: string)
    requires DotFree(alias) && StartsWith(name, alias + ".")
    ensures AliasPart(name) == alias
  {
    var rest := name[|alias| + 1..];
    assert name == Key(alias, rest);
    KeyParts(alias, rest);
  }

  lemma KeysRead(pkg: QueryPackage, tables: TableMap, filter: Option<Circuit>, left: StoredChunk, right: StoredChunk,
                 rightKey: string)
    requires ApartTables(pkg, tables) && JoinQualified(pkg)
    requires PairFine(pkg, tables, filter, rightKey, left, right)
    ensures PairInt(pkg, tables, pkg.joinLeftColumn) && AliasPart(pkg.joinLeftColumn) == pkg.tableAlias
    ensures AliasPart(pkg.joinRightColumn) == pkg.joinedTableAlias
  {
    BothOnly(pkg, tables, left, right);
    StartsWithAlias(pkg.joinLeftColumn, pkg.tableAlias);
    StartsWithAlias(pkg.joinRightColumn, pkg.joinedTableAlias);
    assert Evaluable(Column(Plain(pkg.joinLeftColumn)), PairColumns(pkg, tables, left, right), 1);
    assert OfPair(pkg, tables, Plain(pkg.joinLeftColumn));
  }

  // ---- The filter of an accepted package ----

  lemma StringWide(p: OddPrime, slotCount: nat, e: Expr, schema: TableSchema, pkg: QueryPackage, tables: TableMap,
                   idx: uint32, stack: nat)
    requires e.Compare? && IsStringComparison(e.left, e.right) && Compilable(e, schema)
    requires pkg.tableName in tables && TreeAccepted(pkg, tables, idx, stack)
    requires Represents(p, slotCount, pkg.predicateNodes, pkg.encryptedLiterals, idx, e, schema)
    ensures WidthsPositive(e, schema)
  {
  }

  lemma ChildrenAccepted(e: Expr, pkg: QueryPackage, tables: TableMap, idx: uint32, node: PredNode, stack: nat)
    requires pkg.tableName in tables && TreeAccepted(pkg, tables, idx, stack)
    requires pkg.predicateNodes[idx] == node && (IsBinary(e) || e.Not?)
    requires node.kind == if e.Not? then NotNode else BinaryKind(e)
    ensures TreeAccepted(pkg, tables, node.left, stack - 1)
    ensures !e.Not? ==> TreeAccepted(pkg, tables, node.right, stack - 1)
  {
  }

  /** The validator rejects string comparisons of no width. */
  lemma {:induction false} AcceptedWidth(p: OddPrime, slotCount: nat, e: Expr, schema: TableSchema, pkg: QueryPackage,
                                         tables: TableMap, idx: uint32, node: PredNode, stack: nat)
    requires pkg.tableName in tables && TreeAccepted(pkg, tables, idx, stack) && Compilable(e, schema)
    requires pkg.predicateNodes[idx] == node
    requires Represents(p, slotCount, pkg.predicateNodes, pkg.encryptedLiterals, idx, e, schema)
    ensures WidthsPositive(e, schema)
    decreases e
  {
    if IsBinary(e) || e.Not? {
      ChildrenRepresented(p, slotCount, e, schema, pkg, idx, node);
      ChildrenAccepted(e, pkg, tables, idx, node, stack);
      AcceptedWidth(p, slotCount, e.left, schema, pkg, tables, node.left, pkg.predicateNodes[node.left], stack - 1);
      if !e.Not? {
        AcceptedWidth(p, slotCount, e.right, schema, pkg, tables, node.right, pkg.predicateNodes[node.right],
                      stack - 1);
      }
    } else if e.Compare? {
      StringWide(p, slotCount, e, schema, pkg, tables, idx, stack);
    }
  }

  lemma PackageWidths(p: OddPrime, slotCount: nat, e: Expr, schema: TableSchema, pkg: QueryPackage, tables: TableMap,
                       paramSetId: string, stack: nat)
    requires PackageAccepted(pkg, tables, paramSetId, stack) && Compilable(e, schema)
    requires CarriesPredicate(p, slotCount, e, schema, pkg)
    ensures WidthsPositive(e, schema)
  {
    WalkExtends(p, slotCount, e, schema, NO_TABLES);
    WalkRepresents(p, slotCount, e, schema, NO_TABLES);
    var root := |pkg.predicateNodes| - 1;
    AcceptedWidth(p, slotCount, e, schema, pkg, tables, root, pkg.predicateNodes[root], stack);
  }

  // ---- Whole statements ----

  /** A join that runs has one row in every chunk of its main table and, unless that is
      empty, of the joined one. */
  lemma RunsOnSingleRows(p: OddPrime, slotCount: nat, tables: TableMap, storage: Storage, stmt: SelectStatement,
                         paramSetId: string, stack: nat)
    requires Ingested(tables, storage) && |stmt.joins| > 0
    requires Runs(p, slotCount, tables, storage, stmt, paramSetId, stack)
    ensures stmt.joins[0].rightTable.tableName in storage && OneRowEach(storage[stmt.tableName])
    ensures storage[stmt.tableName] != [] ==> OneRowEach(storage[stmt.joins[0].rightTable.tableName])
  {
    var pkg := PackageFor(p, slotCount, stmt, PlanFor(tables, stmt), tables, paramSetId);
    JoinNeeds(pkg, tables, FilterOf(pkg, stack).value, LeftKey(pkg), RightKey(pkg), storage[pkg.tableName],
              storage[pkg.joinedTableName]);
  }

  /** So a join over a table with a chunk of any other size does not run. */
  lemma LargerChunksFail(p: OddPrime, slotCount: nat, tables: TableMap, storage: Storage, stmt: SelectStatement,
                         paramSetId: string, stack: nat, k: nat)
    requires Ingested(tables, storage) && |stmt.joins| > 0 && stmt.tableName in storage
    requires stmt.joins[0].rightTable.tableName in storage
    requires
      var lefts, rights := storage[stmt.tableName], storage[stmt.joins[0].rightTable.tableName];
      || (k < |lefts| && lefts[k].rowCount != 1)
      || (lefts != [] && k < |rights| && rights[k].rowCount != 1)
    ensures !Runs(p, slotCount, tables, storage, stmt, paramSetId, stack)
  {
    if Runs(p, slotCount, tables, storage, stmt, paramSetId, stack) {
      RunsOnSingleRows(p, slotCount, tables, storage, stmt, paramSetId, stack);
    }
  }

  /** Qualified integer columns of the two tables and integer literals, no strings. */
  predicate OnIntegers(tables: TableMap, stmt: SelectStatement, e: Expr)
    requires TablesKnown(tables, stmt)
  {
    match e
    case ColumnRef(name) => Qualified(name) && StoresIntegers(ComparedColumn(tables, stmt, name))
    case IntLiteral(_) => true
    case StringLiteral(_) => false
    case Not(l) => OnIntegers(tables, stmt, l)
    case Compare(_, l, r) => OnIntegers(tables, stmt, l) && OnIntegers(tables, stmt, r)
    case And(l, r) => OnIntegers(tables, stmt, l) && OnIntegers(tables, stmt, r)
    case Or(l, r) => OnIntegers(tables, stmt, l) && OnIntegers(tables, stmt, r)
  }

  lemma {:induction false} OnIntegersRunnable(tables: TableMap, stmt: SelectStatement, pkg: QueryPackage, e: Expr)
    requires TablesKnown(tables, stmt) && CarriesJoin(pkg, stmt) && AliasesApart(pkg) && pkg.tableAlias != ""
    ensures PairRunnable(pkg, tables, e) <==> OnIntegers(tables, stmt, e)
  {
    match e
    case ColumnRef(name) => SameColumnMeant(tables, stmt, pkg, name);
    case IntLiteral(_) =>
    case StringLiteral(_) =>
    case Not(l) => OnIntegersRunnable(tables, stmt, pkg, l);
    case Compare(_, l, r) => OnIntegersRunnable(tables, stmt, pkg, l); OnIntegersRunnable(tables, stmt, pkg, r);
    case And(l, r) => OnIntegersRunnable(tables, stmt, pkg, l); OnIntegersRunnable(tables, stmt, pkg, r);
    case Or(l, r) => OnIntegersRunnable(tables, stmt, pkg, l); OnIntegersRunnable(tables, stmt, pkg, r);
  }

  /** What a join must be to run, beyond the analyzer's checks. */
  ghost predicate JoinConditions(tables: TableMap, stmt: SelectStatement)
    requires TablesKnown(tables, stmt) && |stmt.joins| == 1
  {
    var main := tables[stmt.tableName];
    && NamesFound(stmt, main) && LeftKeyFirst(stmt, main, stmt.joins[0])
    && WhereInMain(stmt.whereClause, main)
    && (stmt.whereClause.Some? ==> OnIntegers(tables, stmt, stmt.whereClause.value))
  }

  /** An accepted join of two stored tables that have rows. Its predicate, if it is
      encrypted at all, fits 32-bit indices and the server's stack. */
  ghost predicate StoredTwoTables(p: OddPrime, slotCount: nat, tables: TableMap, storage: Storage,
                                  stmt: SelectStatement, ls: seq<Row>, rs: seq<Row>, stack: nat)
  {
    && slotCount >= 1 && Ingested(tables, storage)
    && StatementAccepted(tables, stmt) && TwoTables(tables, stmt)
    && var main := tables[stmt.tableName];
    && (WhereCompilable(stmt.whereClause, main) ==> Fits(stmt.whereClause, main, stack))
    && BothStored(p, tables, storage, stmt, ls, rs) && ls != [] && rs != []
  }

  lemma {:induction false} OnIntegersCompile(tables: TableMap, stmt: SelectStatement, e: Expr)
    requires TablesKnown(tables, stmt) && OnIntegers(tables, stmt, e)
    ensures NoBareString(e) && StringsOfMain(tables[stmt.tableName], e)
  {
    match e
    case Not(l) => OnIntegersCompile(tables, stmt, l);
    case And(l, r) => OnIntegersCompile(tables, stmt, l); OnIntegersCompile(tables, stmt, r);
    case Or(l, r) => OnIntegersCompile(tables, stmt, l); OnIntegersCompile(tables, stmt, r);
    case _ =>
  }

  lemma ConditionsRun(p: OddPrime, slotCount: nat, tables: TableMap, storage: Storage, stmt: SelectStatement,
                      ls: seq<Row>, rs: seq<Row>, paramSetId: string, stack: nat)
    requires StoredTwoTables(p, slotCount, tables, storage, stmt, ls, rs, stack) && JoinConditions(tables, stmt)
    ensures Runs(p, slotCount, tables, storage, stmt, paramSetId, stack)
  {
    JoinPreparedExactly(tables, stmt);
    if stmt.whereClause.Some? {
      OnIntegersCompile(tables, stmt, stmt.whereClause.value);
    }
    var pkg := PackageFor(p, slotCount, stmt, PlanFor(tables, stmt), tables, paramSetId);
    CarriedNamed(tables, stmt, pkg);
    if stmt.whereClause.Some? {
      OnIntegersRunnable(tables, stmt, pkg, stmt.whereClause.value);
    }
    RunnableJoinRuns(p, slotCount, tables, storage, stmt, ls, rs, paramSetId, stack);
  }

  /** The executed pair of the first rows. */
  lemma FirstPair(pkg: QueryPackage, tables: TableMap, filter: Option<Circuit>, leftKey: string, rightKey: string,
                  lefts: seq<StoredChunk>, rights: seq<StoredChunk>)
    requires lefts != [] && rights != [] && LeftsFine(pkg, tables, filter, leftKey, lefts)
    requires PairsFine(pkg, tables, filter, rightKey, Pairs(lefts, rights, |lefts|))
    ensures LeftFine(pkg, tables, filter, leftKey, lefts[0])
    ensures PairFine(pkg, tables, filter, rightKey, lefts[0], rights[0])
  {
    PairsAt(lefts, rights, |lefts|, 0, 0);
    assert Pairs(lefts, rights, |lefts|)[0] == (lefts[0], rights[0]);
  }

  lemma RunFilterRead(p: OddPrime, slotCount: nat, tables: TableMap, storage: Storage, stmt: SelectStatement,
                      ls: seq<Row>, rs: seq<Row>, paramSetId: string, stack: nat)
    requires StoredTwoTables(p, slotCount, tables, storage, stmt, ls, rs, stack) && stmt.whereClause.Some?
    requires Runs(p, slotCount, tables, storage, stmt, paramSetId, stack)
    ensures OnIntegers(tables, stmt, stmt.whereClause.value)
  {
    var e, schema := stmt.whereClause.value, tables[stmt.tableName];
    var pkg := PackageFor(p, slotCount, stmt, PlanFor(tables, stmt), tables, paramSetId);
    var lefts, rights := storage[pkg.tableName], storage[pkg.joinedTableName];
    assert CarriesPredicate(p, slotCount, e, schema, pkg);
    PackageWidths(p, slotCount, e, schema, pkg, tables, paramSetId, stack);
    FilterRebuilt(p, slotCount, stmt, PlanFor(tables, stmt), tables, paramSetId, stack);
    FirstPair(pkg, tables, FilterOf(pkg, stack).value, LeftKey(pkg), RightKey(pkg), lefts, rights);
    FilterReadsPair(p, slotCount, pkg, tables, e, schema, lefts[0], rights[0], LeftKey(pkg), RightKey(pkg));
    OnIntegersRunnable(tables, stmt, pkg, e);
  }

  lemma RunKeysRead(p: OddPrime, slotCount: nat, tables: TableMap, storage: Storage, stmt: SelectStatement,
                    ls: seq<Row>, rs: seq<Row>, paramSetId: string, stack: nat)
    requires StoredTwoTables(p, slotCount, tables, storage, stmt, ls, rs, stack)
    requires Runs(p, slotCount, tables, storage, stmt, paramSetId, stack)
    ensures LeftKeyFirst(stmt, tables[stmt.tableName], stmt.joins[0])
  {
    var pkg := PackageFor(p, slotCount, stmt, PlanFor(tables, stmt), tables, paramSetId);
    var lefts, rights := storage[pkg.tableName], storage[pkg.joinedTableName];
    assert JoinAccepted(AllScopes(tables, stmt), stmt.joins[0].condition);
    FirstPair(pkg, tables, FilterOf(pkg, stack).value, LeftKey(pkg), RightKey(pkg), lefts, rights);
    KeysRead(pkg, tables, FilterOf(pkg, stack).value, lefts[0], rights[0], RightKey(pkg));
  }

  lemma RunScanned(p: OddPrime, slotCount: nat, tables: TableMap, storage: Storage, stmt: SelectStatement,
                   paramSetId: string, stack: nat)
    requires Ingested(tables, storage) && StatementAccepted(tables, stmt)
    requires Runs(p, slotCount, tables, storage, stmt, paramSetId, stack)
    ensures WhereInMain(stmt.whereClause, tables[stmt.tableName])
  {
    var pkg := PackageFor(p, slotCount, stmt, PlanFor(tables, stmt), tables, paramSetId);
    assert AllKnown(tables[pkg.tableName], pkg.scanColumns);
    ScanCheckExact(stmt, tables[stmt.tableName]);
  }

  /** An accepted join of two stored tables runs if and only if every projected or
      ordering name is qualified or a column of the main table, the ON condition names
      the main table first and on an integer column, and WHERE uses nothing but integer
      literals and qualified integer columns whose bare names the main table has. */
  lemma JoinRunsExactly(p: OddPrime, slotCount: nat, tables: TableMap, storage: Storage, stmt: SelectStatement,
                        ls: seq<Row>, rs: seq<Row>, paramSetId: string, stack: nat)
    requires StoredTwoTables(p, slotCount, tables, storage, stmt, ls, rs, stack)
    ensures Runs(p, slotCount, tables, storage, stmt, paramSetId, stack) <==> JoinConditions(tables, stmt)
  {
    if JoinConditions(tables, stmt) {
      ConditionsRun(p, slotCount, tables, storage, stmt, ls, rs, paramSetId, stack);
    }
    if Runs(p, slotCount, tables, storage, stmt, paramSetId, stack) {
      JoinPreparedExactly(tables, stmt);
      RunScanned(p, slotCount, tables, storage, stmt, paramSetId, stack);
      RunKeysRead(p, slotCount, tables, storage, stmt, ls, rs, paramSetId, stack);
      if stmt.whereClause.Some? {
        RunFilterRead(p, slotCount, tables, storage, stmt, ls, rs, paramSetId, stack);
      }
    }
  }
}
