// Logical and physical plans.

module Planner {
  import opened Common
  import opened Catalog
  import opened Ast

  datatype LogicalNode =
    | Scan(tableName: string, tableAlias: string, hasJoin: bool, joinedTableName: string, joinedTableAlias: string,
           joinLeftColumn: string, joinRightColumn: string)
    | Filter(condition: Expr, child: LogicalNode)
    | Project(columns: seq<string>, child: LogicalNode)

  datatype PhysicalPlan = PhysicalPlan(
    tableName: string,
    tableAlias: string,
    joinedTableName: string,
    joinedTableAlias: string,
    joinLeftColumn: string,
    joinRightColumn: string,
    hasJoin: bool,
    scanColumns: seq<string>,
    projectColumns: seq<string>,
    hasFilter: bool)

  // ---- Specification ----

  function AddNew(columns: seq<string>, c: string): seq<string> {
    if c in columns then columns else columns + [c]
  }

  function AllNames(columns: seq<ColumnSchema>): seq<string> {
    seq(|columns|, k requires 0 <= k < |columns| => columns[k].name)
  }

  /** What the user asked to see: the list, or every column for SELECT *. */
  function Requested(stmt: SelectStatement, schema: TableSchema): seq<string> {
    if stmt.projections == [] then AllNames(schema.columns) else stmt.projections
  }

  function WithOrderColumns(columns: seq<string>, orderBy: seq<OrderByColumn>, k: nat): seq<string>
    requires k <= |orderBy|
  {
    if k == 0 then columns else AddNew(WithOrderColumns(columns, orderBy, k - 1), orderBy[k - 1].columnName)
  }

  function Projected(stmt: SelectStatement, schema: TableSchema): seq<string> {
    WithOrderColumns(Requested(stmt, schema), stmt.orderBy, |stmt.orderBy|)
  }

  function Collect(e: Expr, columns: seq<string>): seq<string> {
    match e
    case ColumnRef(name) => AddNew(columns, BareName(name))
    case IntLiteral(_) => columns
    case StringLiteral(_) => columns
    case Not(l) => Collect(l, columns)
    case Compare(_, l, r) => Collect(r, Collect(l, columns))
    case And(l, r) => Collect(r, Collect(l, columns))
    case Or(l, r) => Collect(r, Collect(l, columns))
  }

  /** Columns of the joined table are not scanned with the main table. */
  predicate OfJoined(scan: LogicalNode, c: string)
    requires scan.Scan?
  {
    scan.hasJoin && Qualified(c) && AliasPart(c) == scan.joinedTableAlias
  }

  function WithProjected(columns: seq<string>, scan: LogicalNode, project: seq<string>, k: nat): seq<string>
    requires scan.Scan? && k <= |project|
  {
    if k == 0 then columns
    else
      var earlier := WithProjected(columns, scan, project, k - 1);
      if OfJoined(scan, project[k - 1]) then earlier else AddNew(earlier, BareName(project[k - 1]))
  }

  /** The columnName of a node, empty unless it is a column reference. */
  function ColumnName(e: Expr): string { if e.ColumnRef? then e.name else "" }

  predicate Plannable(stmt: SelectStatement) {
    stmt.joins != [] ==> stmt.joins[0].condition.Compare? && stmt.joins[0].condition.op == Equal
  }

  function ScanOf(stmt: SelectStatement): LogicalNode
    requires Plannable(stmt)
  {
    if stmt.joins == [] then Scan(stmt.tableName, stmt.tableAlias, false, "", "", "", "")
    else
      var join := stmt.joins[0];
      Scan(stmt.tableName, stmt.tableAlias, true, join.rightTable.tableName, join.rightTable.alias,
           ColumnName(join.condition.left), ColumnName(join.condition.right))
  }

  function PlanOf(stmt: SelectStatement, schema: TableSchema): PhysicalPlan
    requires Plannable(stmt)
  {
    var scan := ScanOf(stmt);
    var project := Projected(stmt, schema);
    var filtered := if stmt.whereClause.Some? then Collect(stmt.whereClause.value, []) else [];
    PhysicalPlan(scan.tableName, scan.tableAlias, scan.joinedTableName, scan.joinedTableAlias, scan.joinLeftColumn,
                 scan.joinRightColumn, scan.hasJoin, WithProjected(filtered, scan, project, |project|), project,
                 stmt.whereClause.Some?)
  }

  // ---- The planners ----

  /** Only the first join is planned; its operands are taken for column names without
      a check. */
  method LogicalPlan(stmt: SelectStatement, schema: TableSchema) returns (r: Result<LogicalNode>)
    ensures r.Ok? <==> Plannable(stmt)
    ensures r.Ok? ==>
      r.value == Project(Projected(stmt, schema),
        if stmt.whereClause.Some? then Filter(stmt.whereClause.value, ScanOf(stmt)) else ScanOf(stmt))
  {
    if stmt.joins != [] && (!stmt.joins[0].condition.Compare? || stmt.joins[0].condition.op != Equal) {
      return Err(UnsupportedJoin);
    }
    var scan := ScanOf(stmt);
    var columns: seq<string> := [];
    if stmt.projections == [] {
      ghost var all := AllNames(schema.columns);
      for k := 0 to |schema.columns|
        invariant columns == all[..k]
      {
        columns := columns + [schema.columns[k].name];
        assert all[..k + 1] == all[..k] + [all[k]];
      }
      assert all[..|schema.columns|] == all;
    } else {
      columns := stmt.projections;
    }
    for k := 0 to |stmt.orderBy|
      invariant columns == WithOrderColumns(Requested(stmt, schema), stmt.orderBy, k)
    {
      if stmt.orderBy[k].columnName !in columns {
        columns := columns + [stmt.orderBy[k].columnName];
      }
    }
    r := Ok(Project(columns, if stmt.whereClause.Some? then Filter(stmt.whereClause.value, scan) else scan));
  }

  /** The vector that collectColumns pushes into. */
  class ColumnList {
    var names: seq<string>

    constructor ()
      ensures names == []
    {
      names := [];
    }

    method CollectColumns(e: Expr)
      modifies this
      ensures names == Collect(e, old(names))
      decreases e
    {
      match e {
        case ColumnRef(name) =>
          if BareName(name) !in names {
            names := names + [BareName(name)];
          }
        case IntLiteral(_) =>
        case StringLiteral(_) =>
        case Not(l) =>
          CollectColumns(l);
        case Compare(_, l, r) =>
          CollectColumns(l);
          CollectColumns(r);
        case And(l, r) =>
          CollectColumns(l);
          CollectColumns(r);
        case Or(l, r) =>
          CollectColumns(l);
          CollectColumns(r);
      }
    }
  }

  method PhysicalPlanOf(logical: LogicalNode) returns (r: Result<PhysicalPlan>)
    ensures r.Ok? <==>
      logical.Project? && (logical.child.Scan? || (logical.child.Filter? && logical.child.child.Scan?))
    ensures r.Ok? ==>
      var scan := if logical.child.Filter? then logical.child.child else logical.child;
      var filtered := if logical.child.Filter? then Collect(logical.child.condition, []) else [];
      r.value == PhysicalPlan(scan.tableName, scan.tableAlias, scan.joinedTableName, scan.joinedTableAlias,
        scan.joinLeftColumn, scan.joinRightColumn, scan.hasJoin,
        WithProjected(filtered, scan, logical.columns, |logical.columns|), logical.columns, logical.child.Filter?)
  {
    if !logical.Project? {
      return Err(UnsupportedJoin);
    }
    var node := logical.child;
    var list := new ColumnList();
    var hasFilter := node.Filter?;
    if node.Filter? {
      list.CollectColumns(node.condition);
      node := node.child;
    }
    if !node.Scan? {
      return Err(UnsupportedJoin);
    }
    var scanColumns := list.names;
    ghost var filtered := scanColumns;
    for k := 0 to |logical.columns|
      invariant scanColumns == WithProjected(filtered, node, logical.columns, k)
    {
      var c := logical.columns[k];
      if !(node.hasJoin && Qualified(c) && AliasPart(c) == node.joinedTableAlias) {
        if BareName(c) !in scanColumns {
          scanColumns := scanColumns + [BareName(c)];
        }
      }
    }
    r := Ok(PhysicalPlan(node.tableName, node.tableAlias, node.joinedTableName, node.joinedTableAlias,
                         node.joinLeftColumn, node.joinRightColumn, node.hasJoin, scanColumns, logical.columns,
                         hasFilter));
  }

  // ---- Column coverage ----

  ghost predicate Distinct(columns: seq<string>) {
    forall i, j :: 0 <= i < j < |columns| ==> columns[i] != columns[j]
  }

  /** Every column reference of e is listed under its bare name. */
  predicate Covers(columns: seq<string>, e: Expr) {
    match e
    case ColumnRef(name) => BareName(name) in columns
    case IntLiteral(_) => true
    case StringLiteral(_) => true
    case Not(l) => Covers(columns, l)
    case Compare(_, l, r) => Covers(columns, l) && Covers(columns, r)
    case And(l, r) => Covers(columns, l) && Covers(columns, r)
    case Or(l, r) => Covers(columns, l) && Covers(columns, r)
  }

  lemma {:induction false} CoversMore(columns: seq<string>, more: seq<string>, e: Expr)
    requires columns <= more && Covers(columns, e)
    ensures Covers(more, e)
  {
    match e
    case ColumnRef(name) =>
      var k :| 0 <= k < |columns| && columns[k] == BareName(name);
      assert more[k] == columns[k];
    case IntLiteral(_) =>
    case StringLiteral(_) =>
    case Not(l) => CoversMore(columns, more, l);
    case Compare(_, l, r) => CoversMore(columns, more, l); CoversMore(columns, more, r);
    case And(l, r) => CoversMore(columns, more, l); CoversMore(columns, more, r);
    case Or(l, r) => CoversMore(columns, more, l); CoversMore(columns, more, r);
  }

  lemma {:induction false} CollectCovers(e: Expr, columns: seq<string>)
    ensures columns <= Collect(e, columns)
    ensures Covers(Collect(e, columns), e)
    ensures Distinct(columns) ==> Distinct(Collect(e, columns))
    decreases e, 1
  {
    match e
    case ColumnRef(_) =>
    case IntLiteral(_) =>
    case StringLiteral(_) =>
    case Not(l) => CollectCovers(l, columns);
    case Compare(_, l, r) => CollectTwo(l, r, columns, e);
    case And(l, r) => CollectTwo(l, r, columns, e);
    case Or(l, r) => CollectTwo(l, r, columns, e);
  }

  lemma {:induction false} CollectTwo(l: Expr, r: Expr, columns: seq<string>, parent: Expr)
    requires l < parent && r < parent
    ensures columns <= Collect(r, Collect(l, columns))
    ensures Covers(Collect(r, Collect(l, columns)), l) && Covers(Collect(r, Collect(l, columns)), r)
    ensures Distinct(columns) ==> Distinct(Collect(r, Collect(l, columns)))
    decreases parent, 0
  {
    CollectCovers(l, columns);
    CollectCovers(r, Collect(l, columns));
    CoversMore(Collect(l, columns), Collect(r, Collect(l, columns)), l);
  }

  lemma {:induction false} OrderColumnsListed(columns: seq<string>, orderBy: seq<OrderByColumn>, k: nat)
    requires k <= |orderBy|
    ensures columns <= WithOrderColumns(columns, orderBy, k)
    ensures forall j :: 0 <= j < k ==> orderBy[j].columnName in WithOrderColumns(columns, orderBy, k)
    ensures forall c :: c in WithOrderColumns(columns, orderBy, k) ==>
      c in columns || exists j :: 0 <= j < k && c == orderBy[j].columnName
  {
    if k > 0 {
      OrderColumnsListed(columns, orderBy, k - 1);
    }
  }

  lemma AddNewKeeps(columns: seq<string>, earlier: seq<string>, c: string)
    requires columns <= earlier
    ensures columns <= AddNew(earlier, c) && earlier <= AddNew(earlier, c) && c in AddNew(earlier, c)
    ensures Distinct(earlier) ==> Distinct(AddNew(earlier, c))
  {
  }

  lemma {:induction false} ProjectedListed(columns: seq<string>, scan: LogicalNode, project: seq<string>, k: nat)
    requires scan.Scan? && k <= |project|
    ensures columns <= WithProjected(columns, scan, project, k)
    ensures forall j :: 0 <= j < k && !OfJoined(scan, project[j]) ==>
      BareName(project[j]) in WithProjected(columns, scan, project, k)
    ensures Distinct(columns) ==> Distinct(WithProjected(columns, scan, project, k))
  {
    if k > 0 {
      ProjectedListed(columns, scan, project, k - 1);
      AddNewKeeps(columns, WithProjected(columns, scan, project, k - 1), BareName(project[k - 1]));
    }
  }

  /** The list starts with the names of all columns of the table, in their order. */
  predicate StartsWithAll(schema: TableSchema, names: seq<string>) {
    && |schema.columns| <= |names|
    && forall k :: 0 <= k < |schema.columns| ==> names[k] == schema.columns[k].name
  }

  /** Behind the first k names come ORDER BY columns that are not listed before. */
  predicate OnlyOrderAfter(names: seq<string>, k: nat, orderBy: seq<OrderByColumn>) {
    forall i :: k <= i < |names| ==>
      names[i] !in names[..i] && exists j :: 0 <= j < |orderBy| && orderBy[j].columnName == names[i]
  }

  lemma {:induction false} OrderColumnsAfter(columns: seq<string>, orderBy: seq<OrderByColumn>, k: nat)
    requires k <= |orderBy|
    ensures columns <= WithOrderColumns(columns, orderBy, k)
    ensures OnlyOrderAfter(WithOrderColumns(columns, orderBy, k), |columns|, orderBy)
  {
    if k > 0 {
      OrderColumnsAfter(columns, orderBy, k - 1);
      var earlier := WithOrderColumns(columns, orderBy, k - 1);
      var names := WithOrderColumns(columns, orderBy, k);
      forall i | |columns| <= i < |names|
        ensures names[i] !in names[..i] && exists j :: 0 <= j < |orderBy| && orderBy[j].columnName == names[i]
      {
        if i < |earlier| {
          assert names[..i] == earlier[..i];
        } else {
          assert names[..i] == earlier && orderBy[k - 1].columnName == names[i];
        }
      }
    }
  }

  /** The name is written under the alias of the first join. */
  predicate UnderJoined(stmt: SelectStatement, name: string) {
    stmt.joins != [] && Qualified(name) && AliasPart(name) == stmt.joins[0].rightTable.alias
  }

  /** Column coverage of a plan: the projection starts with the names the user listed,
      or with every column of the table for SELECT *, and goes on with the ORDER BY
      columns that are missing there; the scan list has no duplicates, covers the
      predicate and holds every projected column of the main table. */
  lemma PlanCoverage(stmt: SelectStatement, schema: TableSchema)
    requires Plannable(stmt)
    ensures
      var plan := PlanOf(stmt, schema);
      && Requested(stmt, schema) <= plan.projectColumns
      && (stmt.projections != [] ==> stmt.projections <= plan.projectColumns)
      && (stmt.projections == [] ==> StartsWithAll(schema, plan.projectColumns))
      && OnlyOrderAfter(plan.projectColumns,
           if stmt.projections == [] then |schema.columns| else |stmt.projections|, stmt.orderBy)
      && (plan.hasFilter <==> stmt.whereClause.Some?)
      && plan.tableName == stmt.tableName && plan.tableAlias == stmt.tableAlias
      && (plan.hasJoin <==> stmt.joins != [])
      && (forall j :: 0 <= j < |stmt.orderBy| ==> stmt.orderBy[j].columnName in plan.projectColumns)
      && Distinct(plan.scanColumns)
      && (stmt.whereClause.Some? ==> Covers(plan.scanColumns, stmt.whereClause.value))
      && (forall j :: 0 <= j < |plan.projectColumns| && !UnderJoined(stmt, plan.projectColumns[j]) ==>
            BareName(plan.projectColumns[j]) in plan.scanColumns)
  {
    OrderColumnsListed(Requested(stmt, schema), stmt.orderBy, |stmt.orderBy|);
    OrderColumnsAfter(Requested(stmt, schema), stmt.orderBy, |stmt.orderBy|);
    var project := Projected(stmt, schema);
    var filtered := if stmt.whereClause.Some? then Collect(stmt.whereClause.value, []) else [];
    if stmt.whereClause.Some? {
      CollectCovers(stmt.whereClause.value, []);
    }
    ProjectedListed(filtered, ScanOf(stmt), project, |project|);
    if stmt.whereClause.Some? {
      CoversMore(filtered, PlanOf(stmt, schema).scanColumns, stmt.whereClause.value);
    }
  }
}
