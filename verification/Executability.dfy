// Which accepted single-table statements can be executed. The executor reads stored
// columns under the names that the statement writes, and only integer columns have a
// stored column of that name.

module Executability {
  import opened Common
  import opened Catalog
  import opened Ast
  import opened PrimeField
  import opened Circuit
  import opened Encryptor
  import opened Rebuild
  import opened Plain
  import opened Semantic
  import opened Planner
  import opened QueryEncryption
  import opened Execution
  import opened TableQuery
  import opened RowDecode
  import opened WellTyped
  import opened Pipeline
  import opened JoinQuery
  import opened Client

  // ---- The columns a circuit needs ----

  /** A stored column of the table: under its plain name an integer one, under a name
      and a position a character of a string one. */
  predicate OfTable(schema: TableSchema, x: PhysicalColumn) {
    match x
    case Plain(name) => !Qualified(name) && IntColumn(schema, name)
    case CharAt(name, _) => !Qualified(name)
    case AliasedCharAt(_, _, _) => true
  }

  ghost predicate TableColumns(schema: TableSchema, columns: Columns) {
    forall x :: x in columns ==> OfTable(schema, x)
  }

  lemma {:induction false} ListedOfTable(schema: TableSchema, names: seq<string>, k: nat, x: PhysicalColumn)
    requires PlainSchema(schema) && AllKnown(schema, names) && k <= |names| && x in PhysicalFirst(schema, names, k)
    ensures OfTable(schema, x)
  {
    if x in PhysicalFirst(schema, names, k - 1) {
      ListedOfTable(schema, names, k - 1, x);
    } else {
      assert schema.Column(names[k - 1]) in schema.columns;
    }
  }

  lemma ScannedOfTable(schema: TableSchema, names: seq<string>, columns: Columns)
    requires PlainSchema(schema) && AllKnown(schema, names)
    ensures TableColumns(schema, Restrict(PhysicalList(schema, names), columns))
  {
    forall x | x in Restrict(PhysicalList(schema, names), columns)
      ensures OfTable(schema, x)
    {
      ListedOfTable(schema, names, |names|, x);
    }
  }

  lemma {:induction false} FirstOfAll(cs: seq<Circuit>, begin: nat, end: nat, columns: Columns, n: nat)
    requires begin < end <= |cs| && Evaluable(Combine(cs, begin, end), columns, n)
    ensures Evaluable(cs[begin], columns, n)
    decreases end - begin
  {
    if end - begin > 1 {
      FirstOfAll(cs, begin, begin + (end - begin) / 2, columns, n);
    }
  }

  predicate Unqualifying(e: Expr) { forall q :: q in ColumnNames(e) ==> !Qualified(q) }

  /** Outside comparisons with a string literal, every column is an integer one. */
  predicate IntegersElsewhere(schema: TableSchema, e: Expr) {
    match e
    case ColumnRef(name) => IntColumn(schema, BareName(name))
    case IntLiteral(_) => true
    case StringLiteral(_) => true
    case Not(l) => IntegersElsewhere(schema, l)
    case Compare(_, l, r) => IsStringComparison(l, r) || (IntegersElsewhere(schema, l) && IntegersElsewhere(schema, r))
    case And(l, r) => IntegersElsewhere(schema, l) && IntegersElsewhere(schema, r)
    case Or(l, r) => IntegersElsewhere(schema, l) && IntegersElsewhere(schema, r)
  }

  /** The first character position of a string comparison is read. */
  lemma StringTestReads(p: OddPrime, slotCount: nat, op: CmpOp, column: string, value: string, width: nat,
                        columns: Columns, n: nat)
    requires width > 0 && Evaluable(StringTest(p, slotCount, op, column, value, width), columns, n)
    ensures CharAt(column, 0) in columns
  {
    FirstOfAll(StringTests(p, slotCount, column, value, width), 0, width, columns, n);
  }

  /** An expression that can be evaluated over a table's stored columns names none but
      unqualified columns, and integers outside string comparisons. */
  lemma {:induction false} EvaluableReads(p: OddPrime, slotCount: nat, e: Expr, schema: TableSchema, columns: Columns,
                                          n: nat)
    requires Compilable(e, schema) && WidthsPositive(e, schema) && TableColumns(schema, columns)
    requires Evaluable(Translate(p, slotCount, e, schema), columns, n)
    ensures Unqualifying(e) && IntegersElsewhere(schema, e)
  {
    if IsBinary(e) {
      BinaryEvaluable(BinaryKind(e), Translate(p, slotCount, e.left, schema), Translate(p, slotCount, e.right, schema),
                      columns, n);
      EvaluableReads(p, slotCount, e.left, schema, columns, n);
      EvaluableReads(p, slotCount, e.right, schema, columns, n);
    } else if e.Not? {
      EvaluableReads(p, slotCount, e.left, schema, columns, n);
    } else if e.Compare? {
      StringTestReads(p, slotCount, e.op, StringColumn(e.left, e.right), StringOperand(e.left, e.right),
                      StringWidth(e.left, e.right, schema), columns, n);
    } else if e.ColumnRef? {
      assert Plain(e.name) in columns;
      BareOfUnqualified(e.name);
    }
  }

  // ---- Accepted expressions ----

  lemma NamedUnqualified(e: Expr, operand: Expr)
    requires Unqualifying(e) && ColumnNames(operand) <= ColumnNames(e) && operand.ColumnRef?
    ensures !Qualified(operand.name) && BareName(operand.name) == operand.name
  {
    assert operand.name in ColumnNames(operand);
  }

  lemma ComparisonRunnable(tables: TableMap, stmt: SelectStatement, e: Expr)
    requires TablesKnown(tables, stmt) && ExprAccepted(tables, stmt, e) && stmt.joins == [] && e.Compare?
    requires Unqualifying(e) && IntegersElsewhere(tables[stmt.tableName], e)
    ensures Runnable(e, tables[stmt.tableName])
  {
    if e.left.ColumnRef? {
      NamedUnqualified(e, e.left);
    }
    if e.right.ColumnRef? {
      NamedUnqualified(e, e.right);
    }
  }

  lemma {:induction false} AcceptedRunnable(tables: TableMap, stmt: SelectStatement, e: Expr)
    requires TablesKnown(tables, stmt) && ExprAccepted(tables, stmt, e) && stmt.joins == []
    requires Unqualifying(e) && NoBareString(e) && IntegersElsewhere(tables[stmt.tableName], e)
    ensures Runnable(e, tables[stmt.tableName])
  {
    match e
    case ColumnRef(name) => NamedUnqualified(e, e);
    case IntLiteral(_) =>
    case Compare(_, l, r) => ComparisonRunnable(tables, stmt, e);
    case Not(l) => AcceptedRunnable(tables, stmt, l);
    case And(l, r) => AcceptedRunnable(tables, stmt, l); AcceptedRunnable(tables, stmt, r);
    case Or(l, r) => AcceptedRunnable(tables, stmt, l); AcceptedRunnable(tables, stmt, r);
  }

  lemma {:induction false} AcceptedWidths(tables: TableMap, stmt: SelectStatement, e: Expr)
    requires TablesKnown(tables, stmt) && ExprAccepted(tables, stmt, e) && stmt.joins == []
    requires Compilable(e, tables[stmt.tableName])
    ensures WidthsPositive(e, tables[stmt.tableName])
  {
    if e.And? || e.Or? {
      AcceptedWidths(tables, stmt, e.left);
      AcceptedWidths(tables, stmt, e.right);
    } else if e.Not? {
      AcceptedWidths(tables, stmt, e.left);
    }
  }

  // ---- Whole statements ----

  predicate AllNamesUnqualified(stmt: SelectStatement) {
    && AllUnqualified(stmt.projections) && AllUnqualified(OrderNames(stmt.orderBy))
    && (stmt.whereClause.Some? ==> Unqualifying(stmt.whereClause.value))
  }

  /** No bare string literal, and integers outside string comparisons. */
  predicate WhereRuns(schema: TableSchema, where: Option<Expr>) {
    where.Some? ==> NoBareString(where.value) && IntegersElsewhere(schema, where.value)
  }

  /** An accepted statement over one stored table with at least one chunk. Its
      predicate, if it is encrypted at all, fits 32-bit indices and the server's stack. */
  ghost predicate StoredStatement(p: OddPrime, slotCount: nat, tables: TableMap, storage: Storage,
                                  stmt: SelectStatement, rowss: seq<seq<Row>>, stack: nat)
  {
    && Ingested(tables, storage) && StatementAccepted(tables, stmt) && stmt.joins == []
    && var schema := tables[stmt.tableName];
    && PlainSchema(schema)
    && (WhereCompilable(stmt.whereClause, schema) ==> Fits(stmt.whereClause, schema, stack))
    && TableStored(p, slotCount, schema, storage[stmt.tableName], rowss) && rowss != []
  }

  /** The client prepares the query and the server accepts and executes it. */
  ghost predicate Runs(p: OddPrime, slotCount: nat, tables: TableMap, storage: Storage, stmt: SelectStatement,
                       paramSetId: string, stack: nat)
    requires Ingested(tables, storage)
  {
    && Preparable(stmt, tables)
    && Servable(PackageFor(p, slotCount, stmt, PlanFor(tables, stmt), tables, paramSetId), tables, storage, paramSetId,
                stack)
  }

  lemma StatementRuns(p: OddPrime, slotCount: nat, tables: TableMap, storage: Storage, stmt: SelectStatement,
                      rowss: seq<seq<Row>>, paramSetId: string, stack: nat)
    requires StoredStatement(p, slotCount, tables, storage, stmt, rowss, stack)
    requires AllNamesUnqualified(stmt) && WhereRuns(tables[stmt.tableName], stmt.whereClause)
    ensures Runs(p, slotCount, tables, storage, stmt, paramSetId, stack)
  {
    var schema := tables[stmt.tableName];
    if stmt.whereClause.Some? {
      AcceptedRunnable(tables, stmt, stmt.whereClause.value);
      RunnableCompiles(stmt.whereClause.value, schema);
    }
    RunnableQueriesPass(p, slotCount, tables, stmt, paramSetId, stack);
    var pkg := PackageFor(p, slotCount, stmt, PlanFor(tables, stmt), tables, paramSetId);
    TableExecutable(p, slotCount, schema, pkg, stmt.whereClause, FilterOf(pkg, stack).value, storage[stmt.tableName],
                    rowss);
  }

  lemma ProjectedUnqualified(stmt: SelectStatement, schema: TableSchema)
    requires AllUnqualified(Projected(stmt, schema))
    ensures AllUnqualified(stmt.projections) && AllUnqualified(OrderNames(stmt.orderBy))
  {
    var project := Projected(stmt, schema);
    OrderColumnsListed(Requested(stmt, schema), stmt.orderBy, |stmt.orderBy|);
    forall k | 0 <= k < |stmt.projections|
      ensures !Qualified(stmt.projections[k])
    {
      assert project[k] == stmt.projections[k];
    }
    forall k | 0 <= k < |stmt.orderBy|
      ensures !Qualified(OrderNames(stmt.orderBy)[k])
    {
      assert stmt.orderBy[k].columnName in project;
    }
  }

  lemma FilterReads(p: OddPrime, slotCount: nat, tables: TableMap, storage: Storage, stmt: SelectStatement,
                    rowss: seq<seq<Row>>, paramSetId: string, stack: nat)
    requires StoredStatement(p, slotCount, tables, storage, stmt, rowss, stack) && stmt.whereClause.Some?
    requires Runs(p, slotCount, tables, storage, stmt, paramSetId, stack)
    ensures Unqualifying(stmt.whereClause.value) && WhereRuns(tables[stmt.tableName], stmt.whereClause)
  {
    var e, schema := stmt.whereClause.value, tables[stmt.tableName];
    var pkg := PackageFor(p, slotCount, stmt, PlanFor(tables, stmt), tables, paramSetId);
    EncryptionThrows(tables, stmt, e);
    AcceptedWidths(tables, stmt, e);
    FilterRebuilt(p, slotCount, stmt, PlanFor(tables, stmt), tables, paramSetId, stack);
    var chunk := storage[stmt.tableName][0];
    assert Executable(schema, pkg, FilterOf(pkg, stack).value, chunk);
    ScannedOfTable(schema, pkg.scanColumns, chunk.columns);
    EvaluableReads(p, slotCount, e, schema, Restrict(PhysicalList(schema, pkg.scanColumns), chunk.columns),
                   chunk.rowCount);
  }

  /** An accepted statement over one stored table runs if and only if every name in it -
      projected, ordered by or used in WHERE - is unqualified, no bare string literal
      stands for a truth value, and every column outside a comparison with a string
      literal is an integer. */
  lemma RunsExactly(p: OddPrime, slotCount: nat, tables: TableMap, storage: Storage, stmt: SelectStatement,
                    rowss: seq<seq<Row>>, paramSetId: string, stack: nat)
    requires StoredStatement(p, slotCount, tables, storage, stmt, rowss, stack)
    ensures Runs(p, slotCount, tables, storage, stmt, paramSetId, stack) <==>
      AllNamesUnqualified(stmt) && WhereRuns(tables[stmt.tableName], stmt.whereClause)
  {
    if AllNamesUnqualified(stmt) && WhereRuns(tables[stmt.tableName], stmt.whereClause) {
      StatementRuns(p, slotCount, tables, storage, stmt, rowss, paramSetId, stack);
    }
    if Runs(p, slotCount, tables, storage, stmt, paramSetId, stack) {
      QualifiedProjectionFails(tables, stmt);
      ProjectedUnqualified(stmt, tables[stmt.tableName]);
      if stmt.whereClause.Some? {
        FilterReads(p, slotCount, tables, storage, stmt, rowss, paramSetId, stack);
      }
    }
  }
}
