// Well-typed join queries do not go wrong: what the analyzer accepts, under shape
// conditions on the statement, is planned and encrypted as the join theorems ask.

module JoinWellTyped {
  import opened Common
  import opened Catalog
  import opened Ast
  import opened PrimeField
  import opened Package
  import opened Semantic
  import opened Planner
  import opened QueryEncryption
  import opened TableQuery
  import opened WellTyped
  import opened Pipeline
  import opened JoinExecution
  import opened JoinColumns
  import opened JoinQuery
  import opened JoinMeaning
  import opened JoinPipeline

  // ---- What the analyzer does not check ----

  /** Comparisons of qualified columns and integers, under AND, OR and NOT; columns
      compared with each other are integers. */
  predicate IntegersOnly(tables: TableMap, stmt: SelectStatement, e: Expr)
    requires TablesKnown(tables, stmt)
  {
    match e
    case ColumnRef(_) => false
    case IntLiteral(_) => false
    case StringLiteral(_) => false
    case Compare(_, l, r) =>
      && QualifiedOrInt(l) && QualifiedOrInt(r)
      && (l.ColumnRef? && r.ColumnRef? ==>
            && StoresIntegers(ComparedColumn(tables, stmt, l.name))
            && StoresIntegers(ComparedColumn(tables, stmt, r.name)))
    case And(l, r) => IntegersOnly(tables, stmt, l) && IntegersOnly(tables, stmt, r)
    case Or(l, r) => IntegersOnly(tables, stmt, l) && IntegersOnly(tables, stmt, r)
    case Not(l) => IntegersOnly(tables, stmt, l)
  }

  predicate QualifiedOrInt(e: Expr) { e.IntLiteral? || (e.ColumnRef? && Qualified(e.name)) }

  /** The column exists and is stored as integers. */
  predicate StoresIntegers(c: Option<ColumnSchema>) { c.Some? && c.value.kind != STRING }

  /** Unqualified names are columns of the main table. */
  predicate MainUnlessQualified(schema: TableSchema, names: seq<string>) {
    forall k :: 0 <= k < |names| ==> Qualified(names[k]) || schema.HasColumn(names[k])
  }

  /** So are those that the statement projects or orders by. */
  predicate NamesFound(stmt: SelectStatement, schema: TableSchema) {
    MainUnlessQualified(schema, stmt.projections) && MainUnlessQualified(schema, OrderNames(stmt.orderBy))
  }

  /** The ON condition names the main table first, and its key is an integer. */
  predicate LeftKeyFirst(stmt: SelectStatement, schema: TableSchema, join: JoinClause) {
    var on := join.condition;
    && on.Compare? && on.left.ColumnRef? && on.right.ColumnRef?
    && AliasPart(on.left.name) == stmt.tableAlias && AliasPart(on.right.name) == join.rightTable.alias
    && IntColumn(schema, BareName(on.left.name))
  }

  /** One join of two plainly named tables under different aliases. */
  ghost predicate TwoTables(tables: TableMap, stmt: SelectStatement)
    requires TablesKnown(tables, stmt)
  {
    && |stmt.joins| == 1
    && var join, main := stmt.joins[0], tables[stmt.tableName];
    && stmt.tableAlias != "" && stmt.tableAlias != join.rightTable.alias
    && DotFree(stmt.tableAlias) && DotFree(join.rightTable.alias)
    && PlainSchema(main) && DistinctNames(main.columns)
    && PlainSchema(tables[join.rightTable.tableName]) && DistinctNames(tables[join.rightTable.tableName].columns)
  }

  /** What the names and the key of such a join must be beyond the analyzer's checks. */
  ghost predicate JoinNamed(tables: TableMap, stmt: SelectStatement)
    requires TablesKnown(tables, stmt)
  {
    && TwoTables(tables, stmt) && NamesFound(stmt, tables[stmt.tableName])
    && LeftKeyFirst(stmt, tables[stmt.tableName], stmt.joins[0])
  }

  /** The conditions the join path needs beyond the analyzer's. */
  ghost predicate JoinShape(tables: TableMap, stmt: SelectStatement)
    requires TablesKnown(tables, stmt)
  {
    && JoinNamed(tables, stmt)
    && (stmt.whereClause.Some? ==> IntegersOnly(tables, stmt, stmt.whereClause.value))
  }

  // ---- WHERE ----

  /** The analyzer's resolution of a qualified name is the executor's. */
  lemma SameColumnMeant(tables: TableMap, stmt: SelectStatement, pkg: QueryPackage, name: string)
    requires TablesKnown(tables, stmt) && CarriesJoin(pkg, stmt) && AliasesApart(pkg) && pkg.tableAlias != ""
    ensures PairInt(pkg, tables, name) <==> Qualified(name) && StoresIntegers(ComparedColumn(tables, stmt, name))
  {
    assert stmt.joins == [stmt.joins[0]];
  }

  lemma {:induction false} AcceptedPairTyped(tables: TableMap, stmt: SelectStatement, pkg: QueryPackage, e: Expr)
    requires TablesKnown(tables, stmt) && CarriesJoin(pkg, stmt) && AliasesApart(pkg) && pkg.tableAlias != ""
    requires ExprAccepted(tables, stmt, e) && IntegersOnly(tables, stmt, e)
    ensures PairTyped(pkg, tables, e)
  {
    match e
    case Compare(_, l, r) =>
      if l.ColumnRef? {
        SameColumnMeant(tables, stmt, pkg, l.name);
      }
      if r.ColumnRef? {
        SameColumnMeant(tables, stmt, pkg, r.name);
      }
    case Not(l) => AcceptedPairTyped(tables, stmt, pkg, l);
    case And(l, r) => AcceptedPairTyped(tables, stmt, pkg, l); AcceptedPairTyped(tables, stmt, pkg, r);
    case Or(l, r) => AcceptedPairTyped(tables, stmt, pkg, l); AcceptedPairTyped(tables, stmt, pkg, r);
  }

  // ---- Names ----

  lemma TwoScopes(tables: TableMap, stmt: SelectStatement)
    requires TablesKnown(tables, stmt) && |stmt.joins| == 1 && stmt.tableAlias != ""
    ensures AllScopes(tables, stmt) ==
      map[stmt.tableAlias := tables[stmt.tableName]][stmt.joins[0].rightTable.alias :=
                                                      tables[stmt.joins[0].rightTable.tableName]]
  {
    assert ScopesAfter(tables, stmt, 0) == map[stmt.tableAlias := tables[stmt.tableName]];
  }

  lemma ColumnWide(schema: TableSchema, name: string)
    requires PlainSchema(schema) && schema.HasColumn(name)
    ensures schema.Column(name).kind == STRING ==> schema.Column(name).maxLength > 0
  {
    assert schema.Column(name) in schema.columns;
  }

  /** A resolved name, qualified or of the main table, can be projected. */
  lemma ResolvedProjected(tables: TableMap, stmt: SelectStatement, pkg: QueryPackage, name: string)
    requires TablesKnown(tables, stmt) && TwoTables(tables, stmt) && CarriesJoin(pkg, stmt)
    requires Resolves(AllScopes(tables, stmt), name)
    requires Qualified(name) || tables[stmt.tableName].HasColumn(name)
    ensures PairProjected(pkg, tables, name)
  {
    TwoScopes(tables, stmt);
    var schema := tables[SideTable(pkg, name)];
    if Qualified(name) {
      assert AliasPart(name) in AllScopes(tables, stmt);
    }
    ColumnWide(schema, BareName(name));
  }

  lemma MainColumnProjected(tables: TableMap, stmt: SelectStatement, pkg: QueryPackage, name: string)
    requires TablesKnown(tables, stmt) && TwoTables(tables, stmt) && CarriesJoin(pkg, stmt)
    requires tables[stmt.tableName].HasColumn(name) && !Qualified(name)
    ensures PairProjected(pkg, tables, name)
  {
    ColumnWide(tables[stmt.tableName], name);
  }

  lemma RequestedProjected(tables: TableMap, stmt: SelectStatement, pkg: QueryPackage, name: string)
    requires StatementAccepted(tables, stmt) && TwoTables(tables, stmt) && CarriesJoin(pkg, stmt)
    requires NamesFound(stmt, tables[stmt.tableName])
    requires name in Requested(stmt, tables[stmt.tableName])
    ensures PairProjected(pkg, tables, name)
  {
    var schema := tables[stmt.tableName];
    if stmt.projections == [] {
      var k :| 0 <= k < |schema.columns| && AllNames(schema.columns)[k] == name;
      assert schema.columns[k] in schema.columns && schema.columns[k].name == name;
      MainColumnProjected(tables, stmt, pkg, name);
    } else {
      var k :| 0 <= k < |stmt.projections| && stmt.projections[k] == name;
      assert Resolves(AllScopes(tables, stmt), stmt.projections[k]);
      ResolvedProjected(tables, stmt, pkg, name);
    }
  }

  lemma OrderedProjected(tables: TableMap, stmt: SelectStatement, pkg: QueryPackage, j: nat)
    requires StatementAccepted(tables, stmt) && TwoTables(tables, stmt) && CarriesJoin(pkg, stmt)
    requires NamesFound(stmt, tables[stmt.tableName])
    requires j < |stmt.orderBy|
    ensures PairProjected(pkg, tables, stmt.orderBy[j].columnName)
  {
    var name := stmt.orderBy[j].columnName;
    assert OrderNames(stmt.orderBy)[j] == name;
    assert Resolves(AllScopes(tables, stmt), OrderNames(stmt.orderBy)[j]);
    ResolvedProjected(tables, stmt, pkg, name);
  }

  lemma JoinNameProjected(tables: TableMap, stmt: SelectStatement, pkg: QueryPackage, name: string)
    requires StatementAccepted(tables, stmt) && TwoTables(tables, stmt) && CarriesJoin(pkg, stmt)
    requires NamesFound(stmt, tables[stmt.tableName])
    requires name in Projected(stmt, tables[stmt.tableName])
    ensures PairProjected(pkg, tables, name)
  {
    var schema := tables[stmt.tableName];
    OrderColumnsListed(Requested(stmt, schema), stmt.orderBy, |stmt.orderBy|);
    if name in Requested(stmt, schema) {
      RequestedProjected(tables, stmt, pkg, name);
    } else {
      var j :| 0 <= j < |stmt.orderBy| && name == stmt.orderBy[j].columnName;
      OrderedProjected(tables, stmt, pkg, j);
    }
  }

  // ---- The join condition ----

  lemma KeysMeant(tables: TableMap, stmt: SelectStatement, pkg: QueryPackage)
    requires StatementAccepted(tables, stmt) && TwoTables(tables, stmt) && CarriesJoin(pkg, stmt)
    requires LeftKeyFirst(stmt, tables[stmt.tableName], stmt.joins[0])
    ensures
      var on := stmt.joins[0].condition;
      PairInt(pkg, tables, on.left.name) && PairInt(pkg, tables, on.right.name)
  {
    var on, scopes := stmt.joins[0].condition, AllScopes(tables, stmt);
    TwoScopes(tables, stmt);
    assert JoinAccepted(scopes, on);
    var a, b :| ResolvesTo(scopes, on.left.name, a) && ResolvesTo(scopes, on.right.name, b) && a.kind == b.kind;
  }

  lemma CarriedNamed(tables: TableMap, stmt: SelectStatement, pkg: QueryPackage)
    requires StatementAccepted(tables, stmt) && JoinNamed(tables, stmt) && CarriesJoin(pkg, stmt)
    requires pkg.joinLeftColumn == stmt.joins[0].condition.left.name
    requires pkg.joinRightColumn == stmt.joins[0].condition.right.name
    requires pkg.projectColumns == Projected(stmt, tables[stmt.tableName])
    ensures JoinPlanned(pkg, tables, None)
  {
    KeysMeant(tables, stmt, pkg);
    forall k | 0 <= k < |pkg.projectColumns|
      ensures PairProjected(pkg, tables, pkg.projectColumns[k])
    {
      JoinNameProjected(tables, stmt, pkg, pkg.projectColumns[k]);
    }
  }

  lemma ProjectedFromPair(tables: TableMap, plan: PhysicalPlan, pkg: QueryPackage, name: string)
    requires pkg.tableName == plan.tableName && pkg.tableAlias == plan.tableAlias
    requires pkg.joinedTableName == plan.joinedTableName && PairProjected(pkg, tables, name)
    ensures ProjectedKnown(tables, plan, name)
  {
  }

  lemma ProjectedNeeded(tables: TableMap, stmt: SelectStatement, plan: PhysicalPlan, name: string)
    requires plan.tableName == stmt.tableName && ProjectedKnown(tables, plan, name)
    ensures Qualified(name) || tables[stmt.tableName].HasColumn(name)
  {
  }

  lemma ProjectedIsFound(tables: TableMap, stmt: SelectStatement, plan: PhysicalPlan)
    requires stmt.tableName in tables && Plannable(stmt) && plan == PlanFor(tables, stmt)
    requires forall k :: 0 <= k < |plan.projectColumns| ==> ProjectedKnown(tables, plan, plan.projectColumns[k])
    ensures NamesFound(stmt, tables[stmt.tableName])
  {
    var schema := tables[stmt.tableName];
    OrderColumnsListed(Requested(stmt, schema), stmt.orderBy, |stmt.orderBy|);
    forall k | 0 <= k < |stmt.projections|
      ensures Qualified(stmt.projections[k]) || schema.HasColumn(stmt.projections[k])
    {
      assert plan.projectColumns[k] == stmt.projections[k];
      ProjectedNeeded(tables, stmt, plan, plan.projectColumns[k]);
    }
    forall k | 0 <= k < |stmt.orderBy|
      ensures Qualified(OrderNames(stmt.orderBy)[k]) || schema.HasColumn(OrderNames(stmt.orderBy)[k])
    {
      assert stmt.orderBy[k].columnName in plan.projectColumns;
      ProjectedNeeded(tables, stmt, plan, stmt.orderBy[k].columnName);
    }
  }

  lemma FoundIsProjected(tables: TableMap, stmt: SelectStatement, plan: PhysicalPlan)
    requires StatementAccepted(tables, stmt) && TwoTables(tables, stmt) && NamesFound(stmt, tables[stmt.tableName])
    requires Plannable(stmt) && plan == PlanFor(tables, stmt)
    ensures forall k :: 0 <= k < |plan.projectColumns| ==> ProjectedKnown(tables, plan, plan.projectColumns[k])
  {
    var pkg := PlannedPackage(plan, "", []);
    forall k | 0 <= k < |plan.projectColumns|
      ensures ProjectedKnown(tables, plan, plan.projectColumns[k])
    {
      JoinNameProjected(tables, stmt, pkg, plan.projectColumns[k]);
      ProjectedFromPair(tables, plan, pkg, plan.projectColumns[k]);
    }
  }

  /** When the client prepares an accepted join of two tables: exactly when every
      projected or ordering name is qualified or a column of the main table, no bare
      string literal stands for a truth value, and every string comparison is on a
      column that, by its bare name, the main table has. */
  lemma JoinPreparedExactly(tables: TableMap, stmt: SelectStatement)
    requires StatementAccepted(tables, stmt) && TwoTables(tables, stmt)
    ensures Plannable(stmt)
    ensures Encryptable(stmt, PlanFor(tables, stmt), tables) <==>
      && NamesFound(stmt, tables[stmt.tableName])
      && (stmt.whereClause.Some? ==>
            NoBareString(stmt.whereClause.value) && StringsOfMain(tables[stmt.tableName], stmt.whereClause.value))
  {
    assert JoinAccepted(AllScopes(tables, stmt), stmt.joins[0].condition);
    var plan := PlanFor(tables, stmt);
    if stmt.whereClause.Some? {
      EncryptionThrows(tables, stmt, stmt.whereClause.value);
    }
    if Encryptable(stmt, plan, tables) {
      ProjectedIsFound(tables, stmt, plan);
    }
    if NamesFound(stmt, tables[stmt.tableName]) {
      FoundIsProjected(tables, stmt, plan);
    }
  }

  lemma {:induction false} IntegersCompile(tables: TableMap, stmt: SelectStatement, e: Expr)
    requires TablesKnown(tables, stmt) && IntegersOnly(tables, stmt, e)
    ensures NoBareString(e) && StringsOfMain(tables[stmt.tableName], e)
  {
    match e
    case Compare(_, l, r) =>
    case Not(l) => IntegersCompile(tables, stmt, l);
    case And(l, r) => IntegersCompile(tables, stmt, l); IntegersCompile(tables, stmt, r);
    case Or(l, r) => IntegersCompile(tables, stmt, l); IntegersCompile(tables, stmt, r);
  }

  lemma JoinEncrypts(tables: TableMap, stmt: SelectStatement)
    requires StatementAccepted(tables, stmt) && JoinShape(tables, stmt)
    ensures Plannable(stmt) && Encryptable(stmt, PlanFor(tables, stmt), tables)
  {
    JoinPreparedExactly(tables, stmt);
    if stmt.whereClause.Some? {
      IntegersCompile(tables, stmt, stmt.whereClause.value);
    }
  }

  /** Accepted by the analyzer, of the join shape, with WHERE columns that pass the
      scan check and a predicate that fits: then the statement is one of those the
      join theorems speak about - planned, encrypted, validated and executed. */
  lemma AcceptedJoins(p: OddPrime, slotCount: nat, tables: TableMap, stmt: SelectStatement, paramSetId: string,
                      stack: nat)
    requires StatementAccepted(tables, stmt) && JoinShape(tables, stmt)
    requires WhereInMain(stmt.whereClause, tables[stmt.tableName])
    requires WhereCompilable(stmt.whereClause, tables[stmt.tableName])
    requires Fits(stmt.whereClause, tables[stmt.tableName], stack)
    ensures JoinStatement(p, slotCount, tables, stmt, paramSetId, stack)
  {
    JoinEncrypts(tables, stmt);
    var pkg := PackageFor(p, slotCount, stmt, PlanFor(tables, stmt), tables, paramSetId);
    CarriedNamed(tables, stmt, pkg);
    if stmt.whereClause.Some? {
      AcceptedPairTyped(tables, stmt, pkg, stmt.whereClause.value);
    }
  }
}
