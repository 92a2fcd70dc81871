// Turning a planned statement into a query package.

module QueryEncryption {
  import opened Common
  import opened Catalog
  import opened Ast
  import opened PrimeField
  import opened Package
  import opened Encryptor
  import opened Compiler
  import opened Planner

  const NO_PACKAGE := QueryPackage(2, "", "", false, "", "", "", "", [], [], [], [], [], "")

  /** The plan's fields as the package carries them. */
  ghost predicate CarriesPlan(pkg: QueryPackage, plan: PhysicalPlan, paramSetId: string) {
    && pkg.protocolVersion == 2
    && pkg.tableName == plan.tableName && pkg.tableAlias == plan.tableAlias
    && pkg.hasJoin == plan.hasJoin
    && pkg.joinedTableName == plan.joinedTableName && pkg.joinedTableAlias == plan.joinedTableAlias
    && pkg.joinLeftColumn == plan.joinLeftColumn && pkg.joinRightColumn == plan.joinRightColumn
    && pkg.scanColumns == plan.scanColumns && pkg.projectColumns == plan.projectColumns
    && pkg.paramSetId == paramSetId
  }

  /** The predicate part: empty without WHERE, otherwise the walk over it. */
  ghost predicate CarriesWhere(p: OddPrime, slotCount: nat, where: Option<Expr>, schema: TableSchema,
                               pkg: QueryPackage)
  {
    match where
    case None => pkg.predicateNodes == [] && pkg.encryptedLiterals == []
    case Some(e) =>
      && Compilable(e, schema)
      && Tables(pkg.predicateNodes, pkg.encryptedLiterals) == After(p, slotCount, e, schema, NO_TABLES)
  }

  predicate WhereCompilable(where: Option<Expr>, schema: TableSchema) {
    where.Some? ==> Compilable(where.value, schema)
  }

  function PlannedPackage(plan: PhysicalPlan, paramSetId: string, resultSchema: seq<ColumnSchema>): QueryPackage {
    NO_PACKAGE.(tableName := plan.tableName, tableAlias := plan.tableAlias, hasJoin := plan.hasJoin,
               joinedTableName := plan.joinedTableName, joinedTableAlias := plan.joinedTableAlias,
               joinLeftColumn := plan.joinLeftColumn, joinRightColumn := plan.joinRightColumn,
               scanColumns := plan.scanColumns, projectColumns := plan.projectColumns,
               resultSchema := resultSchema, paramSetId := paramSetId)
  }

  method AddPredicate(p: OddPrime, slotCount: nat, where: Option<Expr>, schema: TableSchema, pkg: QueryPackage)
    returns (r: Result<QueryPackage>)
    requires pkg.predicateNodes == [] && pkg.encryptedLiterals == []
    ensures r.Ok? <==> WhereCompilable(where, schema)
    ensures r.Ok? ==> CarriesWhere(p, slotCount, where, schema, r.value)
    ensures r.Ok? ==>
      r.value == pkg.(predicateNodes := r.value.predicateNodes, encryptedLiterals := r.value.encryptedLiterals)
  {
    if where.None? {
      return Ok(pkg);
    }
    var builder := new PredicateBuilder(p, slotCount);
    assert builder.State() == NO_TABLES;
    var _ :- builder.BuildPredNode(where.value, schema);
    r := Ok(pkg.(predicateNodes := builder.nodes, encryptedLiterals := builder.literals));
  }

  /** The overload that looks every result column up in one schema. */
  method EncryptWithSchema(p: OddPrime, slotCount: nat, stmt: SelectStatement, plan: PhysicalPlan, schema: TableSchema,
                           paramSetId: string) returns (r: Result<QueryPackage>)
    ensures r.Ok? <==>
      && (forall k :: 0 <= k < |plan.projectColumns| ==> schema.HasColumn(BareName(plan.projectColumns[k])))
      && WhereCompilable(stmt.whereClause, schema)
    ensures r.Ok? ==> CarriesPlan(r.value, plan, paramSetId)
    ensures r.Ok? ==> CarriesWhere(p, slotCount, stmt.whereClause, schema, r.value)
    ensures r.Ok? ==> |r.value.resultSchema| == |plan.projectColumns|
    ensures r.Ok? ==> forall k :: 0 <= k < |plan.projectColumns| ==>
      r.value.resultSchema[k] == schema.Column(BareName(plan.projectColumns[k]))
  {
    var resultSchema: seq<ColumnSchema> := [];
    for k := 0 to |plan.projectColumns|
      invariant |resultSchema| == k
      invariant forall j :: 0 <= j < k ==>
        && schema.HasColumn(BareName(plan.projectColumns[j]))
        && resultSchema[j] == schema.Column(BareName(plan.projectColumns[j]))
    {
      if !schema.HasColumn(BareName(plan.projectColumns[k])) {
        return Err(ColumnNotFound);
      }
      resultSchema := resultSchema + [schema.Column(BareName(plan.projectColumns[k]))];
    }
    r := AddPredicate(p, slotCount, stmt.whereClause, schema, PlannedPackage(plan, paramSetId, resultSchema));
  }

  /** The table a projected name belongs to: unless its alias is the main one, the
      joined table. */
  function ProjectedTable(plan: PhysicalPlan, name: string): string {
    if (if Qualified(name) then AliasPart(name) else plan.tableAlias) == plan.tableAlias then plan.tableName
    else plan.joinedTableName
  }

  predicate ProjectedKnown(tables: TableMap, plan: PhysicalPlan, name: string) {
    ProjectedTable(plan, name) in tables && tables[ProjectedTable(plan, name)].HasColumn(BareName(name))
  }

  predicate Encryptable(stmt: SelectStatement, plan: PhysicalPlan, tables: TableMap) {
    && (forall k :: 0 <= k < |plan.projectColumns| ==> ProjectedKnown(tables, plan, plan.projectColumns[k]))
    && (stmt.whereClause.Some? ==>
          plan.tableName in tables && Compilable(stmt.whereClause.value, tables[plan.tableName]))
  }

  function ProjectedSchema(tables: TableMap, plan: PhysicalPlan, name: string): ColumnSchema
    requires ProjectedKnown(tables, plan, name)
  {
    tables[ProjectedTable(plan, name)].Column(BareName(name)).(name := name)
  }

  function ResultSchemaOf(plan: PhysicalPlan, tables: TableMap): seq<ColumnSchema>
    requires forall k :: 0 <= k < |plan.projectColumns| ==> ProjectedKnown(tables, plan, plan.projectColumns[k])
  {
    seq(|plan.projectColumns|,
        k requires 0 <= k < |plan.projectColumns| && ProjectedKnown(tables, plan, plan.projectColumns[k]) =>
          ProjectedSchema(tables, plan, plan.projectColumns[k]))
  }

  /** The result schema lists the projected names as written, each with the type and
      width of its column: in the main table without an alias or under the main one, in
      the joined table under any other. */
  ghost predicate NamesResults(pkg: QueryPackage, plan: PhysicalPlan, tables: TableMap) {
    && |pkg.resultSchema| == |plan.projectColumns|
    && forall k :: 0 <= k < |plan.projectColumns| ==>
         var name, c := plan.projectColumns[k], pkg.resultSchema[k];
         var main := !Qualified(name) || AliasPart(name) == plan.tableAlias;
         var table := if main then plan.tableName else plan.joinedTableName;
         && table in tables && tables[table].HasColumn(BareName(name)) && c.name == name
         && c.kind == tables[table].Column(BareName(name)).kind
         && c.maxLength == tables[table].Column(BareName(name)).maxLength
  }

  /** The package of an encryptable statement. */
  function PackageFor(p: OddPrime, slotCount: nat, stmt: SelectStatement, plan: PhysicalPlan, tables: TableMap,
                      paramSetId: string): QueryPackage
    requires Encryptable(stmt, plan, tables)
  {
    var pkg := PlannedPackage(plan, paramSetId, ResultSchemaOf(plan, tables));
    if stmt.whereClause.None? then pkg
    else
      var walked := After(p, slotCount, stmt.whereClause.value, tables[plan.tableName], NO_TABLES);
      pkg.(predicateNodes := walked.nodes, encryptedLiterals := walked.literals)
  }

  /** The overload the client uses: result columns come from either table. */
  method EncryptWithCatalog(p: OddPrime, slotCount: nat, stmt: SelectStatement, plan: PhysicalPlan, tables: TableMap,
                            paramSetId: string) returns (r: Result<QueryPackage>)
    ensures r.Ok? <==> Encryptable(stmt, plan, tables)
    ensures r.Ok? ==> r.value == PackageFor(p, slotCount, stmt, plan, tables, paramSetId)
    ensures r.Ok? ==> CarriesPlan(r.value, plan, paramSetId) && NamesResults(r.value, plan, tables)
  {
    var resultSchema: seq<ColumnSchema> := [];
    for k := 0 to |plan.projectColumns|
      invariant |resultSchema| == k
      invariant forall j :: 0 <= j < k ==>
        ProjectedKnown(tables, plan, plan.projectColumns[j])
        && resultSchema[j] == ProjectedSchema(tables, plan, plan.projectColumns[j])
    {
      var name := plan.projectColumns[k];
      if !ProjectedKnown(tables, plan, name) {
        return Err(ColumnNotFound);
      }
      resultSchema := resultSchema + [ProjectedSchema(tables, plan, name)];
    }
    assert resultSchema == ResultSchemaOf(plan, tables);
    var pkg := PlannedPackage(plan, paramSetId, resultSchema);
    if stmt.whereClause.None? {
      return Ok(pkg);
    }
    if plan.tableName !in tables {
      return Err(TableNotFound);
    }
    r := AddPredicate(p, slotCount, stmt.whereClause, tables[plan.tableName], pkg);
  }
}
