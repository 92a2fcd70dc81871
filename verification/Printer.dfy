// Printing syntax trees as SQL.

module Printer {
  import opened Common
  import opened Ast
  import opened Lexer

  function OpText(op: CmpOp): string {
    match op
    case Equal => " = "
    case NotEqual => " != "
    case GreaterThan => " > "
    case LessThan => " < "
    case GreaterEqual => " >= "
    case LessEqual => " <= "
  }

  /** ASTExpr::toSQL. Quotes inside a string literal are printed as they are. */
  function ToSql(e: Expr): string {
    match e
    case ColumnRef(name) => name
    case IntLiteral(v) => IntText(v)
    case StringLiteral(text) => "'" + text + "'"
    case Not(l) => "NOT(" + ToSql(l) + ")"
    case Compare(op, l, r) => ToSql(l) + OpText(op) + ToSql(r)
    case And(l, r) => "(" + ToSql(l) + " AND " + ToSql(r) + ")"
    case Or(l, r) => "(" + ToSql(l) + " OR " + ToSql(r) + ")"
  }

  // ---- Statements, clause by clause, each with the text after it ----

  /** The names from the k-th on, after the first one separated by commas. */
  function NamesText(names: seq<string>, k: nat): string
    requires k <= |names|
    decreases |names| - k
  {
    if k == |names| then "" else (if k > 0 then ", " else "") + names[k] + NamesText(names, k + 1)
  }

  function ProjectionText(projections: seq<string>): string {
    if projections == [] then "*" else NamesText(projections, 0)
  }

  function AliasText(ref: TableRef): string {
    if ref.alias != "" && ref.alias != ref.tableName then " AS " + ref.alias else ""
  }

  function JoinText(join: JoinClause): string {
    " JOIN " + join.rightTable.tableName
      + (if join.rightTable.alias != join.rightTable.tableName then " AS " + join.rightTable.alias else "")
      + " ON " + ToSql(join.condition)
  }

  function JoinsText(joins: seq<JoinClause>, k: nat): string
    requires k <= |joins|
    decreases |joins| - k
  {
    if k == |joins| then "" else JoinText(joins[k]) + JoinsText(joins, k + 1)
  }

  function WhereText(where: Option<Expr>): string {
    if where.None? then "" else " WHERE " + ToSql(where.value)
  }

  function OrderedText(c: OrderByColumn): string {
    c.columnName + if c.direction == Descending then " DESC" else ""
  }

  function OrdersText(orderBy: seq<OrderByColumn>, k: nat): string
    requires k <= |orderBy|
    decreases |orderBy| - k
  {
    if k == |orderBy| then "" else (if k > 0 then ", " else "") + OrderedText(orderBy[k]) + OrdersText(orderBy, k + 1)
  }

  function OrderText(orderBy: seq<OrderByColumn>): string {
    if orderBy == [] then "" else " ORDER BY " + OrdersText(orderBy, 0)
  }

  function LimitText(limit: int): string {
    if limit >= 0 then " LIMIT " + IntText(limit) else ""
  }

  function StatementText(stmt: SelectStatement): string {
    "SELECT " + (ProjectionText(stmt.projections) +
      (" FROM " + (stmt.tableName + (AliasText(TableRef(stmt.tableName, stmt.tableAlias)) +
        (JoinsText(stmt.joins, 0) +
          (WhereText(stmt.whereClause) + (OrderText(stmt.orderBy) + LimitText(stmt.limitCount))))))))
  }

  // ---- The printer ----

  lemma Assoc(a: string, b: string, c: string)
    ensures a + (b + c) == a + b + c
  {
  }

  method PrintNames(names: seq<string>) returns (s: string)
    ensures s == NamesText(names, 0)
  {
    s := "";
    for i := 0 to |names|
      invariant NamesText(names, 0) == s + NamesText(names, i)
    {
      var part := (if i > 0 then ", " else "") + names[i];
      Assoc(s, part, NamesText(names, i + 1));
      s := s + part;
    }
  }

  method PrintJoin(join: JoinClause) returns (s: string)
    ensures s == JoinText(join)
  {
    s := " JOIN " + join.rightTable.tableName;
    if join.rightTable.alias != join.rightTable.tableName {
      Assoc(s, " AS ", join.rightTable.alias);
      s := s + " AS " + join.rightTable.alias;
    }
    s := s + " ON " + ToSql(join.condition);
  }

  method PrintJoins(joins: seq<JoinClause>) returns (s: string)
    ensures s == JoinsText(joins, 0)
  {
    s := "";
    for i := 0 to |joins|
      invariant JoinsText(joins, 0) == s + JoinsText(joins, i)
    {
      var part := PrintJoin(joins[i]);
      Assoc(s, part, JoinsText(joins, i + 1));
      s := s + part;
    }
  }

  method PrintOrdered(c: OrderByColumn) returns (s: string)
    ensures s == OrderedText(c)
  {
    s := c.columnName;
    if c.direction == Descending {
      s := s + " DESC";
    }
  }

  method PrintOrder(orderBy: seq<OrderByColumn>) returns (s: string)
    ensures s == OrdersText(orderBy, 0)
  {
    s := "";
    for i := 0 to |orderBy|
      invariant OrdersText(orderBy, 0) == s + OrdersText(orderBy, i)
    {
      var ordered := PrintOrdered(orderBy[i]);
      var part := (if i > 0 then ", " else "") + ordered;
      Assoc(s, part, OrdersText(orderBy, i + 1));
      s := s + part;
    }
  }

  /** SelectStatement::toSQL. */
  method Print(stmt: SelectStatement) returns (s: string)
    ensures s == StatementText(stmt)
  {
    ghost var table := TableRef(stmt.tableName, stmt.tableAlias);
    ghost var tail := OrderText(stmt.orderBy) + LimitText(stmt.limitCount);
    ghost var filtered := WhereText(stmt.whereClause) + tail;
    ghost var joined := JoinsText(stmt.joins, 0) + filtered;
    ghost var aliased := AliasText(table) + joined;

    s := "SELECT ";
    var projections := "*";
    if stmt.projections != [] {
      projections := PrintNames(stmt.projections);
    }
    Assoc(s, projections, " FROM " + (stmt.tableName + aliased));
    s := s + projections;
    Assoc(s, " FROM ", stmt.tableName + aliased);
    Assoc(s + " FROM ", stmt.tableName, aliased);
    s := s + " FROM " + stmt.tableName;
    assert StatementText(stmt) == s + aliased;
    s := PrintTail(stmt, s);
  }

  method PrintTail(stmt: SelectStatement, before: string) returns (s: string)
    ensures s == before + (AliasText(TableRef(stmt.tableName, stmt.tableAlias)) + (JoinsText(stmt.joins, 0) +
      (WhereText(stmt.whereClause) + (OrderText(stmt.orderBy) + LimitText(stmt.limitCount)))))
  {
    var alias := "";
    if stmt.tableAlias != "" && stmt.tableAlias != stmt.tableName {
      alias := " AS " + stmt.tableAlias;
    }
    var joins := PrintJoins(stmt.joins);
    var filter := "";
    if stmt.whereClause.Some? {
      filter := " WHERE " + ToSql(stmt.whereClause.value);
    }
    var order := "";
    if stmt.orderBy != [] {
      var list := PrintOrder(stmt.orderBy);
      order := " ORDER BY " + list;
    }
    var limit := if stmt.limitCount >= 0 then " LIMIT " + IntText(stmt.limitCount) else "";
    Assoc(before, alias, joins + (filter + (order + limit)));
    Assoc(before + alias, joins, filter + (order + limit));
    Assoc(before + alias + joins, filter, order + limit);
    Assoc(before + alias + joins + filter, order, limit);
    s := before + alias + joins + filter + order + limit;
  }
}
