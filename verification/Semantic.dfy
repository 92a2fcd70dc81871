// Static checks on a parsed statement.

module Semantic {
  import opened Common
  import opened Catalog
  import opened Ast

  type Scopes = map<string, TableSchema>

  // ---- Name resolution at statement level ----

  /** A qualified name resolves through its alias; a bare name must belong to
      exactly one scope. */
  predicate Resolves(scopes: Scopes, ref: string) {
    if Qualified(ref) then
      AliasPart(ref) in scopes && scopes[AliasPart(ref)].HasColumn(BareName(ref))
    else
      exists a :: a in scopes && scopes[a].HasColumn(ref) && Unrivalled(scopes, a, ref)
  }

  predicate Unrivalled(scopes: Scopes, a: string, ref: string) {
    forall b :: b in scopes && scopes[b].HasColumn(ref) ==> b == a
  }

  /** The column a resolving name stands for. */
  ghost predicate ResolvesTo(scopes: Scopes, ref: string, column: ColumnSchema) {
    if Qualified(ref) then
      && AliasPart(ref) in scopes
      && scopes[AliasPart(ref)].HasColumn(BareName(ref))
      && column == scopes[AliasPart(ref)].Column(BareName(ref))
    else
      exists a ::
        a in scopes && scopes[a].HasColumn(ref) && Unrivalled(scopes, a, ref) && column == scopes[a].Column(ref)
  }

  method Resolve(scopes: Scopes, ref: string) returns (r: Result<ColumnSchema>)
    ensures r.Ok? <==> Resolves(scopes, ref)
    ensures r.Ok? ==> ResolvesTo(scopes, ref, r.value)
  {
    if Qualified(ref) {
      if AliasPart(ref) !in scopes || !scopes[AliasPart(ref)].HasColumn(BareName(ref)) {
        return Err(SemanticError);
      }
      return Ok(scopes[AliasPart(ref)].Column(BareName(ref)));
    }
    var found: Option<string> := None;
    var rest := scopes.Keys;
    while rest != {}
      invariant rest <= scopes.Keys
      invariant found.None? ==> forall a :: a in scopes && scopes[a].HasColumn(ref) ==> a in rest
      invariant found.Some? ==> found.value in scopes && found.value !in rest && scopes[found.value].HasColumn(ref)
      invariant found.Some? ==> forall a :: a in scopes && scopes[a].HasColumn(ref) ==> a in rest || a == found.value
      decreases rest
    {
      var a :| a in rest;
      rest := rest - {a};
      if scopes[a].HasColumn(ref) {
        if found.Some? {
          return Err(SemanticError);
        }
        found := Some(a);
      }
    }
    if found.None? {
      return Err(SemanticError);
    }
    assert Unrivalled(scopes, found.value, ref);
    r := Ok(scopes[found.value].Column(ref));
  }

  // ---- Predicates ----

  predicate TablesKnown(tables: TableMap, stmt: SelectStatement) {
    && stmt.tableName in tables
    && forall j :: 0 <= j < |stmt.joins| ==> stmt.joins[j].rightTable.tableName in tables
  }

  /** The first join under that alias. */
  function FirstJoin(joins: seq<JoinClause>, alias: string): (r: Option<JoinClause>)
    ensures r.Some? ==> r.value in joins && r.value.rightTable.alias == alias
  {
    if joins == [] then None
    else if joins[0].rightTable.alias == alias then Some(joins[0])
    else FirstJoin(joins[1..], alias)
  }

  function ColumnOf(schema: TableSchema, name: string): Option<ColumnSchema> {
    if schema.HasColumn(name) then Some(schema.Column(name)) else None
  }

  /** Resolution inside a comparison: bare names only in the main table. */
  function ComparedColumn(tables: TableMap, stmt: SelectStatement, ref: string): Option<ColumnSchema>
    requires TablesKnown(tables, stmt)
  {
    if Qualified(ref) then
      var alias := AliasPart(ref);
      if alias == stmt.tableAlias || (stmt.tableAlias == "" && alias == stmt.tableName) then
        ColumnOf(tables[stmt.tableName], BareName(ref))
      else
        match FirstJoin(stmt.joins, alias)
        case Some(join) => ColumnOf(tables[join.rightTable.tableName], BareName(ref))
        case None => None
    else ColumnOf(tables[stmt.tableName], ref)
  }

  predicate IsOrdering(op: CmpOp) { op != Equal && op != NotEqual }

  predicate HasKind(c: Option<ColumnSchema>, kind: DataType) { c.Some? && c.value.kind == kind }

  /** A literal against a column: kinds agree, strings fit and are never ordered. */
  predicate LiteralAccepted(op: CmpOp, column: Option<ColumnSchema>, literal: Expr) {
    match literal
    case IntLiteral(_) => HasKind(column, INT64)
    case StringLiteral(s) =>
      HasKind(column, STRING) && !IsOrdering(op) && column.value.maxLength != 0 && |s| <= column.value.maxLength
    case _ => false
  }

  predicate ComparisonAccepted(tables: TableMap, stmt: SelectStatement, op: CmpOp, l: Expr, r: Expr)
    requires TablesKnown(tables, stmt)
  {
    if l.ColumnRef? && r.ColumnRef? then
      var lc, rc := ComparedColumn(tables, stmt, l.name), ComparedColumn(tables, stmt, r.name);
      lc.Some? && rc.Some? && (IsOrdering(op) ==> HasKind(lc, INT64) && HasKind(rc, INT64))
    else if l.ColumnRef? then LiteralAccepted(op, ComparedColumn(tables, stmt, l.name), r)
    else if r.ColumnRef? then LiteralAccepted(op, ComparedColumn(tables, stmt, r.name), l)
    else false
  }

  /** A bare column must exist in some table; a qualified one is not checked here. */
  predicate ExprAccepted(tables: TableMap, stmt: SelectStatement, e: Expr)
    requires TablesKnown(tables, stmt)
  {
    match e
    case ColumnRef(name) =>
      || Qualified(name)
      || tables[stmt.tableName].HasColumn(name)
      || exists j :: 0 <= j < |stmt.joins| && tables[stmt.joins[j].rightTable.tableName].HasColumn(name)
    case IntLiteral(_) => true
    case StringLiteral(_) => true
    case Compare(op, l, r) => ComparisonAccepted(tables, stmt, op, l, r)
    case And(l, r) => ExprAccepted(tables, stmt, l) && ExprAccepted(tables, stmt, r)
    case Or(l, r) => ExprAccepted(tables, stmt, l) && ExprAccepted(tables, stmt, r)
    case Not(l) => ExprAccepted(tables, stmt, l)
  }

  // ---- Whole statements ----

  function MainAlias(stmt: SelectStatement): string {
    if stmt.tableAlias == "" then stmt.tableName else stmt.tableAlias
  }

  /** The scopes after the first k joins; a later alias shadows an earlier one. */
  function ScopesAfter(tables: TableMap, stmt: SelectStatement, k: nat): Scopes
    requires TablesKnown(tables, stmt) && k <= |stmt.joins|
  {
    if k == 0 then map[MainAlias(stmt) := tables[stmt.tableName]]
    else ScopesAfter(tables, stmt, k - 1)[stmt.joins[k - 1].rightTable.alias :=
                                           tables[stmt.joins[k - 1].rightTable.tableName]]
  }

  function AllScopes(tables: TableMap, stmt: SelectStatement): Scopes
    requires TablesKnown(tables, stmt)
  {
    ScopesAfter(tables, stmt, |stmt.joins|)
  }

  ghost predicate SameKind(scopes: Scopes, x: string, y: string) {
    exists a, b :: ResolvesTo(scopes, x, a) && ResolvesTo(scopes, y, b) && a.kind == b.kind
  }

  /** ON must equate two qualified columns of the same type. */
  ghost predicate JoinAccepted(scopes: Scopes, e: Expr) {
    && e.Compare? && e.op == Equal && e.left.ColumnRef? && e.right.ColumnRef?
    && Resolves(scopes, e.left.name) && Resolves(scopes, e.right.name)
    && SameKind(scopes, e.left.name, e.right.name)
    && Qualified(e.left.name) && Qualified(e.right.name)
  }

  ghost predicate StatementAccepted(tables: TableMap, stmt: SelectStatement) {
    && stmt.tableName != ""
    && TablesKnown(tables, stmt)
    && var scopes := AllScopes(tables, stmt);
    && (forall k :: 0 <= k < |stmt.projections| ==> Resolves(scopes, stmt.projections[k]))
    && (stmt.whereClause.Some? ==> ExprAccepted(tables, stmt, stmt.whereClause.value))
    && (forall k :: 0 <= k < |stmt.joins| ==> JoinAccepted(scopes, stmt.joins[k].condition))
    && (forall k :: 0 <= k < |OrderNames(stmt.orderBy)| ==> Resolves(scopes, OrderNames(stmt.orderBy)[k]))
    && stmt.limitCount >= -1
  }

  lemma ResolutionUnique(scopes: Scopes, ref: string, a: ColumnSchema, b: ColumnSchema)
    requires ResolvesTo(scopes, ref, a) && ResolvesTo(scopes, ref, b)
    ensures a == b
  {
  }

  lemma SameKindDecided(scopes: Scopes, x: string, y: string, a: ColumnSchema, b: ColumnSchema)
    requires ResolvesTo(scopes, x, a) && ResolvesTo(scopes, y, b)
    ensures SameKind(scopes, x, y) <==> a.kind == b.kind
  {
    if SameKind(scopes, x, y) {
      var a', b' :| ResolvesTo(scopes, x, a') && ResolvesTo(scopes, y, b') && a'.kind == b'.kind;
      ResolutionUnique(scopes, x, a, a');
      ResolutionUnique(scopes, y, b, b');
    }
  }

  method CheckJoin(scopes: Scopes, e: Expr) returns (ok: bool)
    ensures ok <==> JoinAccepted(scopes, e)
  {
    if !e.Compare? || e.op != Equal || !e.left.ColumnRef? || !e.right.ColumnRef? {
      return false;
    }
    var left := Resolve(scopes, e.left.name);
    var right := Resolve(scopes, e.right.name);
    if left.Err? || right.Err? {
      return false;
    }
    SameKindDecided(scopes, e.left.name, e.right.name, left.value, right.value);
    ok := left.value.kind == right.value.kind && Qualified(e.left.name) && Qualified(e.right.name);
  }

  method BuildScopes(tables: TableMap, stmt: SelectStatement) returns (r: Result<Scopes>)
    requires stmt.tableName in tables
    ensures r.Ok? <==> TablesKnown(tables, stmt)
    ensures r.Ok? ==> r.value == AllScopes(tables, stmt)
  {
    var scopes := map[MainAlias(stmt) := tables[stmt.tableName]];
    for k := 0 to |stmt.joins|
      invariant forall j :: 0 <= j < k ==> stmt.joins[j].rightTable.tableName in tables
      invariant TablesKnown(tables, stmt) ==> scopes == ScopesAfter(tables, stmt, k)
    {
      if stmt.joins[k].rightTable.tableName !in tables {
        return Err(SemanticError);
      }
      scopes := scopes[stmt.joins[k].rightTable.alias := tables[stmt.joins[k].rightTable.tableName]];
    }
    r := Ok(scopes);
  }

  method ResolveAll(scopes: Scopes, names: seq<string>) returns (ok: bool)
    ensures ok <==> forall k :: 0 <= k < |names| ==> Resolves(scopes, names[k])
  {
    for k := 0 to |names|
      invariant forall j :: 0 <= j < k ==> Resolves(scopes, names[j])
    {
      var c := Resolve(scopes, names[k]);
      if c.Err? {
        return false;
      }
    }
    ok := true;
  }

  method CheckJoins(scopes: Scopes, joins: seq<JoinClause>) returns (ok: bool)
    ensures ok <==> forall k :: 0 <= k < |joins| ==> JoinAccepted(scopes, joins[k].condition)
  {
    for k := 0 to |joins|
      invariant FirstAccepted(scopes, joins, k)
    {
      var fine := CheckJoin(scopes, joins[k].condition);
      NextAccepted(scopes, joins, k);
      if !fine {
        return false;
      }
    }
    ok := true;
  }

  ghost predicate FirstAccepted(scopes: Scopes, joins: seq<JoinClause>, k: nat)
    requires k <= |joins|
  {
    forall j :: 0 <= j < k ==> JoinAccepted(scopes, joins[j].condition)
  }

  lemma NextAccepted(scopes: Scopes, joins: seq<JoinClause>, k: nat)
    requires k < |joins| && FirstAccepted(scopes, joins, k)
    ensures FirstAccepted(scopes, joins, k + 1) <==> JoinAccepted(scopes, joins[k].condition)
    ensures FirstAccepted(scopes, joins, |joins|) ==> JoinAccepted(scopes, joins[k].condition)
  {
  }

  function OrderNames(orderBy: seq<OrderByColumn>): seq<string> {
    seq(|orderBy|, k requires 0 <= k < |orderBy| => orderBy[k].columnName)
  }

  method Analyze(tables: TableMap, stmt: SelectStatement) returns (r: Result<TableSchema>)
    ensures r.Ok? <==> StatementAccepted(tables, stmt)
    ensures r.Ok? ==> r.value == tables[stmt.tableName]
  {
    if stmt.tableName == "" || stmt.tableName !in tables {
      return Err(SemanticError);
    }
    var scopes :- BuildScopes(tables, stmt);
    var projectionsFine := ResolveAll(scopes, stmt.projections);
    var whereFine := stmt.whereClause.None? || ExprAccepted(tables, stmt, stmt.whereClause.value);
    var joinsFine := CheckJoins(scopes, stmt.joins);
    var orderFine := ResolveAll(scopes, OrderNames(stmt.orderBy));
    if !projectionsFine || !whereFine || !joinsFine || !orderFine || stmt.limitCount < -1 {
      return Err(SemanticError);
    }
    r := Ok(tables[stmt.tableName]);
  }
}
