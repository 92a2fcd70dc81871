// The SQL syntax tree. Children are never null, as in every tree the parser builds.

module Ast {
  import opened Common

  datatype CmpOp = Equal | NotEqual | GreaterThan | LessThan | GreaterEqual | LessEqual

  datatype Expr =
    | ColumnRef(name: string)
    | IntLiteral(intValue: int)
    | StringLiteral(text: string)
    | Compare(op: CmpOp, left: Expr, right: Expr)
    | And(left: Expr, right: Expr)
    | Or(left: Expr, right: Expr)
    | Not(left: Expr)

  datatype SortDirection = Ascending | Descending

  datatype OrderByColumn = OrderByColumn(columnName: string, direction: SortDirection)

  datatype TableRef = TableRef(tableName: string, alias: string)

  datatype JoinClause = JoinClause(rightTable: TableRef, condition: Expr)

  /** Empty projections mean SELECT *; a limit of -1 means no LIMIT. */
  datatype SelectStatement = SelectStatement(
    projections: seq<string>,
    tableName: string,
    tableAlias: string,
    joins: seq<JoinClause>,
    whereClause: Option<Expr>,
    orderBy: seq<OrderByColumn>,
    limitCount: int)

  /** A column compared with a string literal, in either order. */
  predicate IsStringComparison(l: Expr, r: Expr) {
    (l.ColumnRef? && r.StringLiteral?) || (l.StringLiteral? && r.ColumnRef?)
  }

  function StringColumn(l: Expr, r: Expr): string
    requires IsStringComparison(l, r)
  {
    if l.ColumnRef? then l.name else r.name
  }

  function StringOperand(l: Expr, r: Expr): string
    requires IsStringComparison(l, r)
  {
    if l.StringLiteral? then l.text else r.text
  }
}
