// Well-typed queries do not go wrong: what the analyzer accepts, under shape
// conditions a caller can check, is planned, encrypted and validated.

module WellTyped {
  import opened Common
  import opened Catalog
  import opened Ast
  import opened PrimeField
  import opened Package
  import opened Encryptor
  import opened Rebuild
  import opened Semantic
  import opened Planner
  import opened Execution
  import opened Validator
  import opened TableQuery
  import opened RowDecode
  import opened RoundTrip

  // ---- What the analyzer does not check ----

  /** Comparisons under AND, OR and NOT, with no bare operand in between. */
  predicate BooleanShaped(e: Expr) {
    match e
    case ColumnRef(_) => false
    case IntLiteral(_) => false
    case StringLiteral(_) => false
    case Compare(_, _, _) => true
    case And(l, r) => BooleanShaped(l) && BooleanShaped(r)
    case Or(l, r) => BooleanShaped(l) && BooleanShaped(r)
    case Not(l) => BooleanShaped(l)
  }

  /** Names are unqualified, and columns compared with each other are integers. */
  predicate PlainlyNamed(schema: TableSchema, e: Expr) {
    match e
    case ColumnRef(name) => !Qualified(name)
    case IntLiteral(_) => true
    case StringLiteral(_) => true
    case Not(l) => PlainlyNamed(schema, l)
    case Compare(_, l, r) =>
      && PlainlyNamed(schema, l) && PlainlyNamed(schema, r)
      && (l.ColumnRef? && r.ColumnRef? ==> IntColumn(schema, l.name) && IntColumn(schema, r.name))
    case And(l, r) => PlainlyNamed(schema, l) && PlainlyNamed(schema, r)
    case Or(l, r) => PlainlyNamed(schema, l) && PlainlyNamed(schema, r)
  }

  /** A schema whose columns have plain names and whose strings have some width. */
  predicate PlainSchema(schema: TableSchema) {
    forall c :: c in schema.columns ==>
      && c.name != "" && !Qualified(c.name)
      && (c.kind == STRING ==> 0 < c.maxLength <= UINT32_MAX)
  }

  predicate AllUnqualified(names: seq<string>) { forall k :: 0 <= k < |names| ==> !Qualified(names[k]) }

  /** The conditions the single-table path needs beyond the analyzer's. */
  predicate SingleTableQuery(schema: TableSchema, stmt: SelectStatement) {
    && stmt.joins == []
    && PlainSchema(schema)
    && AllUnqualified(stmt.projections) && AllUnqualified(OrderNames(stmt.orderBy))
    && (stmt.whereClause.Some? ==>
          BooleanShaped(stmt.whereClause.value) && PlainlyNamed(schema, stmt.whereClause.value))
  }

  /** What they give: unqualified names, and a filter the server can evaluate. */
  predicate RunnableQuery(schema: TableSchema, stmt: SelectStatement) {
    && stmt.joins == []
    && PlainSchema(schema)
    && AllUnqualified(stmt.projections) && AllUnqualified(OrderNames(stmt.orderBy))
    && (stmt.whereClause.Some? ==> Runnable(stmt.whereClause.value, schema))
  }

  // ---- From acceptance to types ----

  /** Every accepted predicate has the shape the parser round trip asks for. */
  lemma {:induction false} AcceptedShaped(tables: TableMap, stmt: SelectStatement, e: Expr)
    requires TablesKnown(tables, stmt) && ExprAccepted(tables, stmt, e)
    ensures Shaped(e)
  {
    match e
    case ColumnRef(_) =>
    case IntLiteral(_) =>
    case StringLiteral(_) =>
    case Compare(_, l, r) =>
    case Not(l) => AcceptedShaped(tables, stmt, l);
    case And(l, r) => AcceptedShaped(tables, stmt, l); AcceptedShaped(tables, stmt, r);
    case Or(l, r) => AcceptedShaped(tables, stmt, l); AcceptedShaped(tables, stmt, r);
  }

  /** Accepted, boolean-shaped and plainly named: used at its types. */
  lemma {:induction false} AcceptedTyped(tables: TableMap, stmt: SelectStatement, e: Expr)
    requires TablesKnown(tables, stmt) && ExprAccepted(tables, stmt, e) && stmt.joins == []
    requires BooleanShaped(e) && PlainlyNamed(tables[stmt.tableName], e)
    ensures TypedPredicate(e, tables[stmt.tableName])
  {
    match e
    case Compare(op, l, r) =>
    case Not(l) => AcceptedTyped(tables, stmt, l);
    case And(l, r) => AcceptedTyped(tables, stmt, l); AcceptedTyped(tables, stmt, r);
    case Or(l, r) => AcceptedTyped(tables, stmt, l); AcceptedTyped(tables, stmt, r);
  }

  lemma SingleTableRunnable(tables: TableMap, stmt: SelectStatement)
    requires StatementAccepted(tables, stmt) && SingleTableQuery(tables[stmt.tableName], stmt)
    ensures RunnableQuery(tables[stmt.tableName], stmt)
  {
    if stmt.whereClause.Some? {
      AcceptedTyped(tables, stmt, stmt.whereClause.value);
      TypedRunnable(stmt.whereClause.value, tables[stmt.tableName]);
    }
  }

  /** No string literal stands where a truth value is expected. */
  predicate NoBareString(e: Expr) {
    match e
    case StringLiteral(_) => false
    case Not(l) => NoBareString(l)
    case And(l, r) => NoBareString(l) && NoBareString(r)
    case Or(l, r) => NoBareString(l) && NoBareString(r)
    case _ => true
  }

  lemma OperandCompiles(e: Expr, schema: TableSchema)
    requires e.ColumnRef? || e.IntLiteral?
    ensures Compilable(e, schema)
  {
  }

  /** String comparisons only on columns that, by their bare names, the main table
      has: the encryptor looks every one of them up there. */
  predicate StringsOfMain(main: TableSchema, e: Expr) {
    match e
    case Compare(_, l, r) => IsStringComparison(l, r) ==> main.HasColumn(BareName(StringColumn(l, r)))
    case Not(l) => StringsOfMain(main, l)
    case And(l, r) => StringsOfMain(main, l) && StringsOfMain(main, r)
    case Or(l, r) => StringsOfMain(main, l) && StringsOfMain(main, r)
    case _ => true
  }

  /** When encrypting an accepted predicate throws, joins included: exactly when a bare
      string literal stands in for a truth value, or a string comparison is on a
      column that only the joined table has. */
  lemma {:induction false} EncryptionThrows(tables: TableMap, stmt: SelectStatement, e: Expr)
    requires TablesKnown(tables, stmt) && ExprAccepted(tables, stmt, e)
    ensures Compilable(e, tables[stmt.tableName]) <==> NoBareString(e) && StringsOfMain(tables[stmt.tableName], e)
  {
    match e
    case ColumnRef(_) =>
    case IntLiteral(_) =>
    case StringLiteral(_) =>
    case Compare(_, l, r) =>
      if !IsStringComparison(l, r) {
        OperandCompiles(l, tables[stmt.tableName]);
        OperandCompiles(r, tables[stmt.tableName]);
      }
    case Not(l) => EncryptionThrows(tables, stmt, l);
    case And(l, r) => EncryptionThrows(tables, stmt, l); EncryptionThrows(tables, stmt, r);
    case Or(l, r) => EncryptionThrows(tables, stmt, l); EncryptionThrows(tables, stmt, r);
  }

  /** Over a single table the first is the only reason. */
  lemma {:induction false} OneTableStrings(tables: TableMap, stmt: SelectStatement, e: Expr)
    requires TablesKnown(tables, stmt) && ExprAccepted(tables, stmt, e) && stmt.joins == []
    ensures StringsOfMain(tables[stmt.tableName], e)
  {
    match e
    case Compare(_, l, r) =>
    case Not(l) => OneTableStrings(tables, stmt, l);
    case And(l, r) => OneTableStrings(tables, stmt, l); OneTableStrings(tables, stmt, r);
    case Or(l, r) => OneTableStrings(tables, stmt, l); OneTableStrings(tables, stmt, r);
    case _ =>
  }

  // ---- From acceptance to the plan ----

  lemma SingleScope(tables: TableMap, stmt: SelectStatement, name: string)
    requires TablesKnown(tables, stmt) && stmt.joins == [] && !Qualified(name)
    ensures Resolves(AllScopes(tables, stmt), name) <==> tables[stmt.tableName].HasColumn(name)
  {
    var scopes := AllScopes(tables, stmt);
    assert scopes == map[MainAlias(stmt) := tables[stmt.tableName]];
    if tables[stmt.tableName].HasColumn(name) {
      assert Unrivalled(scopes, MainAlias(stmt), name);
    }
  }

  lemma KnownProjectable(schema: TableSchema, names: seq<string>)
    requires PlainSchema(schema) && AllKnown(schema, names)
    ensures Projectable(schema, names)
  {
    forall k | 0 <= k < |names|
      ensures IntColumn(schema, names[k]) || StringColumnOf(schema, names[k])
    {
      assert schema.HasColumn(names[k]);
    }
  }

  lemma UnqualifiedResolved(tables: TableMap, stmt: SelectStatement, name: string)
    requires StatementAccepted(tables, stmt) && stmt.joins == []
    requires name in Projected(stmt, tables[stmt.tableName]) && !Qualified(name)
    ensures tables[stmt.tableName].HasColumn(name)
  {
    var schema := tables[stmt.tableName];
    OrderColumnsListed(Requested(stmt, schema), stmt.orderBy, |stmt.orderBy|);
    if name in Requested(stmt, schema) {
      if stmt.projections == [] {
        var k :| 0 <= k < |schema.columns| && AllNames(schema.columns)[k] == name;
        assert schema.columns[k].name == name;
      } else {
        var k :| 0 <= k < |stmt.projections| && stmt.projections[k] == name;
        assert Resolves(AllScopes(tables, stmt), stmt.projections[k]);
        SingleScope(tables, stmt, name);
      }
    } else {
      var j :| 0 <= j < |stmt.orderBy| && name == stmt.orderBy[j].columnName;
      assert OrderNames(stmt.orderBy)[j] == name;
      assert Resolves(AllScopes(tables, stmt), OrderNames(stmt.orderBy)[j]);
      SingleScope(tables, stmt, name);
    }
  }

  /** Every projected name is an unqualified column of the table. */
  lemma ProjectedKnownNames(tables: TableMap, stmt: SelectStatement, name: string)
    requires StatementAccepted(tables, stmt) && RunnableQuery(tables[stmt.tableName], stmt)
    requires name in Projected(stmt, tables[stmt.tableName])
    ensures tables[stmt.tableName].HasColumn(name) && !Qualified(name)
  {
    var schema := tables[stmt.tableName];
    OrderColumnsListed(Requested(stmt, schema), stmt.orderBy, |stmt.orderBy|);
    if name in Requested(stmt, schema) {
      if stmt.projections == [] {
        var k :| 0 <= k < |schema.columns| && AllNames(schema.columns)[k] == name;
        assert schema.columns[k] in schema.columns;
      }
    } else {
      var j :| 0 <= j < |stmt.orderBy| && name == stmt.orderBy[j].columnName;
      assert OrderNames(stmt.orderBy)[j] == name;
    }
    UnqualifiedResolved(tables, stmt, name);
  }

  lemma {:induction false} CollectedKnown(schema: TableSchema, e: Expr, columns: seq<string>, name: string)
    requires Runnable(e, schema) || e.StringLiteral? || (e.ColumnRef? && !Qualified(e.name) && schema.HasColumn(e.name))
    requires name in Collect(e, columns)
    ensures name in columns || schema.HasColumn(name)
    decreases e
  {
    match e
    case ColumnRef(_) =>
    case IntLiteral(_) =>
    case StringLiteral(_) =>
    case Not(l) => CollectedKnown(schema, l, columns, name);
    case Compare(_, l, r) =>
      CollectedKnown(schema, r, Collect(l, columns), name);
      if name in Collect(l, columns) {
        CollectedKnown(schema, l, columns, name);
      }
    case And(l, r) =>
      CollectedKnown(schema, r, Collect(l, columns), name);
      if name in Collect(l, columns) {
        CollectedKnown(schema, l, columns, name);
      }
    case Or(l, r) =>
      CollectedKnown(schema, r, Collect(l, columns), name);
      if name in Collect(l, columns) {
        CollectedKnown(schema, l, columns, name);
      }
  }

  lemma {:induction false} ProjectedFrom(columns: seq<string>, scan: LogicalNode, project: seq<string>, k: nat,
                                         name: string)
    requires scan.Scan? && k <= |project| && name in WithProjected(columns, scan, project, k)
    ensures name in columns || exists j :: 0 <= j < k && name == BareName(project[j])
  {
    if k > 0 && name in WithProjected(columns, scan, project, k - 1) {
      ProjectedFrom(columns, scan, project, k - 1, name);
    }
  }

  function PlanFor(tables: TableMap, stmt: SelectStatement): PhysicalPlan
    requires stmt.tableName in tables && Plannable(stmt)
  {
    PlanOf(stmt, tables[stmt.tableName])
  }

  lemma ScannedKnown(tables: TableMap, stmt: SelectStatement, name: string)
    requires StatementAccepted(tables, stmt) && RunnableQuery(tables[stmt.tableName], stmt)
    requires Plannable(stmt) && name in PlanFor(tables, stmt).scanColumns
    ensures tables[stmt.tableName].HasColumn(name)
  {
    var schema := tables[stmt.tableName];
    var project := Projected(stmt, schema);
    var filtered := if stmt.whereClause.Some? then Collect(stmt.whereClause.value, []) else [];
    ProjectedFrom(filtered, ScanOf(stmt), project, |project|, name);
    if name in filtered {
      CollectedKnown(schema, stmt.whereClause.value, [], name);
    } else {
      var j :| 0 <= j < |project| && name == BareName(project[j]);
      ProjectedKnownNames(tables, stmt, project[j]);
    }
  }

  ghost predicate FollowsPlan(pkg: QueryPackage, plan: PhysicalPlan) {
    pkg.scanColumns == plan.scanColumns && pkg.projectColumns == plan.projectColumns
  }

  /** The plan of an accepted query lists everything its execution reads. */
  lemma RunnablePlanned(tables: TableMap, stmt: SelectStatement, pkg: QueryPackage)
    requires StatementAccepted(tables, stmt) && RunnableQuery(tables[stmt.tableName], stmt)
    requires Plannable(stmt) && FollowsPlan(pkg, PlanFor(tables, stmt))
    ensures Scannable(tables[stmt.tableName], pkg, stmt.whereClause)
    ensures AllUnqualified(pkg.projectColumns) && AllKnown(tables[stmt.tableName], pkg.projectColumns)
  {
    var schema := tables[stmt.tableName];
    PlanCoverage(stmt, schema);
    forall k | 0 <= k < |pkg.scanColumns|
      ensures schema.HasColumn(pkg.scanColumns[k])
    {
      ScannedKnown(tables, stmt, pkg.scanColumns[k]);
    }
    forall k | 0 <= k < |pkg.projectColumns|
      ensures schema.HasColumn(pkg.projectColumns[k]) && !Qualified(pkg.projectColumns[k])
      ensures pkg.projectColumns[k] in pkg.scanColumns
    {
      ProjectedKnownNames(tables, stmt, pkg.projectColumns[k]);
      BareOfUnqualified(pkg.projectColumns[k]);
    }
    KnownProjectable(schema, pkg.projectColumns);
  }

  lemma AcceptedPlanned(tables: TableMap, stmt: SelectStatement, pkg: QueryPackage)
    requires StatementAccepted(tables, stmt) && SingleTableQuery(tables[stmt.tableName], stmt)
    requires Plannable(stmt) && FollowsPlan(pkg, PlanFor(tables, stmt))
    ensures Planned(tables[stmt.tableName], pkg, stmt.whereClause)
    ensures AllUnqualified(pkg.projectColumns) && AllKnown(tables[stmt.tableName], pkg.projectColumns)
  {
    SingleTableRunnable(tables, stmt);
    RunnablePlanned(tables, stmt, pkg);
    if stmt.whereClause.Some? {
      AcceptedTyped(tables, stmt, stmt.whereClause.value);
    }
  }

  /** Why names must be unqualified: the single-table path looks projected names up
      as they are written, so over plainly named columns it runs exactly when every
      projected name is unqualified. */
  lemma QualifiedProjectionFails(tables: TableMap, stmt: SelectStatement)
    requires StatementAccepted(tables, stmt) && stmt.joins == [] && PlainSchema(tables[stmt.tableName])
    ensures AllKnown(tables[stmt.tableName], Projected(stmt, tables[stmt.tableName])) <==>
      AllUnqualified(Projected(stmt, tables[stmt.tableName]))
  {
    var schema := tables[stmt.tableName];
    var project := Projected(stmt, schema);
    forall k | 0 <= k < |project|
      ensures schema.HasColumn(project[k]) <==> !Qualified(project[k])
    {
      if schema.HasColumn(project[k]) {
        assert schema.Column(project[k]) in schema.columns;
      }
      if !Qualified(project[k]) {
        UnqualifiedResolved(tables, stmt, project[k]);
      }
    }
  }

  // ---- From the plan to an accepted package ----

  predicate Serialised(literals: seq<LiteralEntry>) {
    forall i :: 0 <= i < |literals| ==> literals[i].bytes.Serialized?
  }

  lemma {:induction false} WalkSerialises(p: OddPrime, slotCount: nat, e: Expr, schema: TableSchema, st: Tables)
    requires Compilable(e, schema) && Serialised(st.literals)
    ensures Serialised(After(p, slotCount, e, schema, st).literals)
  {
    if IsBinary(e) {
      WalkSerialises(p, slotCount, e.left, schema, st);
      WalkSerialises(p, slotCount, e.right, schema, After(p, slotCount, e.left, schema, st));
    } else if e.Not? {
      WalkSerialises(p, slotCount, e.left, schema, st);
    }
  }

  lemma BlockFound(p: OddPrime, slotCount: nat, literals: seq<LiteralEntry>, node: PredNode, value: string, width: nat)
    requires node.literalId + width <= |literals| <= UINT32_MAX
    requires literals[node.literalId..node.literalId + width] == StringBlock(p, slotCount, value, width, node.literalId)
    ensures forall k :: 0 <= k < width ==> HasPosition(literals, node, k)
  {
    forall k | 0 <= k < width
      ensures HasPosition(literals, node, k)
    {
      var m := node.literalId;
      assert literals[m + k] == literals[m..m + width][k];
      assert CharEntry(literals[m + k], ToU32(m + k));
    }
  }

  lemma StringAccepted(p: OddPrime, slotCount: nat, e: Expr, schema: TableSchema, pkg: QueryPackage, idx: nat)
    requires e.Compare? && IsStringComparison(e.left, e.right) && Runnable(e, schema) && Compilable(e, schema)
    requires PlainSchema(schema) && |pkg.encryptedLiterals| <= UINT32_MAX
    requires Represents(p, slotCount, pkg.predicateNodes, pkg.encryptedLiterals, idx, e, schema)
    ensures StringNodeAccepted(pkg, schema, pkg.predicateNodes[idx])
  {
    var c := schema.Column(StringColumn(e.left, e.right));
    assert c in schema.columns;
    BlockFound(p, slotCount, pkg.encryptedLiterals, pkg.predicateNodes[idx], StringOperand(e.left, e.right),
               c.maxLength);
  }

  /** A package for this table whose ids and indices fit 32 bits. */
  ghost predicate Served(pkg: QueryPackage, tables: TableMap, schema: TableSchema) {
    && pkg.tableName in tables && tables[pkg.tableName] == schema && !pkg.hasJoin && PlainSchema(schema)
    && |pkg.predicateNodes| <= UINT32_MAX
    && Numbered(pkg.encryptedLiterals) && |pkg.encryptedLiterals| <= UINT32_MAX
  }

  lemma LeafAccepted(p: OddPrime, slotCount: nat, e: Expr, schema: TableSchema, pkg: QueryPackage, tables: TableMap,
                     idx: uint32, stack: nat)
    requires (e.ColumnRef? || e.IntLiteral?) && Runnable(e, schema) && Compilable(e, schema) && stack > 0
    requires Served(pkg, tables, schema)
    requires Represents(p, slotCount, pkg.predicateNodes, pkg.encryptedLiterals, idx, e, schema)
    ensures TreeAccepted(pkg, tables, idx, stack)
  {
    if e.IntLiteral? {
      NumberedLookup(pkg.encryptedLiterals, pkg.predicateNodes[idx].literalId);
    } else {
      BareOfUnqualified(e.name);
    }
  }

  lemma ParentAccepted(e: Expr, pkg: QueryPackage, tables: TableMap, idx: uint32, node: PredNode, stack: nat)
    requires pkg.tableName in tables && stack > 0 && (IsBinary(e) || e.Not?)
    requires idx < |pkg.predicateNodes| <= UINT32_MAX && pkg.predicateNodes[idx] == node
    requires node.kind == if e.Not? then NotNode else BinaryKind(e)
    requires node.left < |pkg.predicateNodes| && TreeAccepted(pkg, tables, node.left, stack - 1)
    requires IsBinary(e) ==> node.right < |pkg.predicateNodes| && TreeAccepted(pkg, tables, node.right, stack - 1)
    ensures TreeAccepted(pkg, tables, idx, stack)
  {
  }

  /** Whatever the encryptor linearised from an expression the server can evaluate, its
      validator accepts, with no more stack than the tree is high. */
  lemma {:induction false} RepresentedAccepted(p: OddPrime, slotCount: nat, e: Expr, schema: TableSchema,
                                               pkg: QueryPackage, tables: TableMap, idx: uint32, stack: nat)
    requires Runnable(e, schema) && Compilable(e, schema) && stack >= Height(e) && Served(pkg, tables, schema)
    requires Represents(p, slotCount, pkg.predicateNodes, pkg.encryptedLiterals, idx, e, schema)
    ensures TreeAccepted(pkg, tables, idx, stack)
    decreases e, 1
  {
    if e.Compare? && IsStringComparison(e.left, e.right) {
      StringAccepted(p, slotCount, e, schema, pkg, idx);
    } else if e.ColumnRef? || e.IntLiteral? {
      LeafAccepted(p, slotCount, e, schema, pkg, tables, idx, stack);
    } else {
      ComposedAccepted(p, slotCount, e, schema, pkg, tables, idx, pkg.predicateNodes[idx], stack);
    }
  }

  lemma {:induction false} ComposedAccepted(p: OddPrime, slotCount: nat, e: Expr, schema: TableSchema,
                                            pkg: QueryPackage,
                                            tables: TableMap, idx: uint32, node: PredNode, stack: nat)
    requires Runnable(e, schema) && Compilable(e, schema) && stack >= Height(e) && Served(pkg, tables, schema)
    requires (IsBinary(e) || e.Not?) && idx < |pkg.predicateNodes| && pkg.predicateNodes[idx] == node
    requires Represents(p, slotCount, pkg.predicateNodes, pkg.encryptedLiterals, idx, e, schema)
    ensures TreeAccepted(pkg, tables, idx, stack)
    decreases e, 0
  {
    ChildrenRepresented(p, slotCount, e, schema, pkg, idx, node);
    RepresentedAccepted(p, slotCount, e.left, schema, pkg, tables, node.left, stack - 1);
    if !e.Not? {
      RepresentedAccepted(p, slotCount, e.right, schema, pkg, tables, node.right, stack - 1);
    }
    ParentAccepted(e, pkg, tables, idx, node, stack);
  }
}
