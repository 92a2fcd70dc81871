// The plaintext meaning of a join query, read off the statement: two nested loops
// over the rows of its tables, the ON and WHERE conditions, the projection.

module JoinPlain {
  import opened Common
  import opened Catalog
  import opened Ast
  import opened Plain
  import opened Semantic
  import opened Planner
  import opened Decoder
  import opened SortLimit

  predicate IsJoin(tables: TableMap, stmt: SelectStatement) { TablesKnown(tables, stmt) && |stmt.joins| == 1 }

  /** Whether a name is a column of the main table: by its alias, or, when it has
      none, because that table has such a column. */
  predicate NamesMain(tables: TableMap, stmt: SelectStatement, q: string)
    requires IsJoin(tables, stmt)
  {
    if Qualified(q) then AliasPart(q) == stmt.tableAlias else tables[stmt.tableName].HasColumn(q)
  }

  function RowNamed(tables: TableMap, stmt: SelectStatement, q: string, l: Row, r: Row): Row
    requires IsJoin(tables, stmt)
  {
    if NamesMain(tables, stmt, q) then l else r
  }

  function ColumnNamed(tables: TableMap, stmt: SelectStatement, q: string): Option<ColumnSchema>
    requires IsJoin(tables, stmt)
  {
    ColumnOf(if NamesMain(tables, stmt, q) then tables[stmt.tableName] else tables[stmt.joins[0].rightTable.tableName],
             BareName(q))
  }

  function IntNamed(tables: TableMap, stmt: SelectStatement, q: string, l: Row, r: Row): int
    requires IsJoin(tables, stmt)
  {
    IntAt(RowNamed(tables, stmt, q, l, r), BareName(q))
  }

  function StringNamed(tables: TableMap, stmt: SelectStatement, q: string, l: Row, r: Row): string
    requires IsJoin(tables, stmt)
  {
    StringAt(RowNamed(tables, stmt, q, l, r), BareName(q))
  }

  function TermNamed(tables: TableMap, stmt: SelectStatement, e: Expr, l: Row, r: Row): int
    requires IsJoin(tables, stmt) && IsIntTerm(e)
  {
    if e.ColumnRef? then IntNamed(tables, stmt, e.name, l, r) else e.intValue
  }

  /** A condition on a pair of rows; columns compared with each other are integers. */
  predicate Holds(tables: TableMap, stmt: SelectStatement, e: Expr, l: Row, r: Row)
    requires IsJoin(tables, stmt)
  {
    match e
    case Compare(op, x, y) =>
      if IsStringComparison(x, y) then
        (StringNamed(tables, stmt, StringColumn(x, y), l, r) == StringOperand(x, y)) == (op == Equal)
      else
        && IsIntTerm(x) && IsIntTerm(y)
        && CompareInts(op, TermNamed(tables, stmt, x, l, r), TermNamed(tables, stmt, y, l, r))
    case And(x, y) => Holds(tables, stmt, x, l, r) && Holds(tables, stmt, y, l, r)
    case Or(x, y) => Holds(tables, stmt, x, l, r) || Holds(tables, stmt, y, l, r)
    case Not(x) => !Holds(tables, stmt, x, l, r)
    case _ => false
  }

  /** ON and WHERE. */
  predicate Matches(tables: TableMap, stmt: SelectStatement, l: Row, r: Row)
    requires IsJoin(tables, stmt)
  {
    && Holds(tables, stmt, stmt.joins[0].condition, l, r)
    && (stmt.whereClause.Some? ==> Holds(tables, stmt, stmt.whereClause.value, l, r))
  }

  predicate IsString(tables: TableMap, stmt: SelectStatement, q: string)
    requires IsJoin(tables, stmt)
  {
    HasKind(ColumnNamed(tables, stmt, q), STRING)
  }

  /** The projection of a pair: each requested name with its value. */
  function PairResult(tables: TableMap, stmt: SelectStatement, names: seq<string>, l: Row, r: Row): ResultRow
    requires IsJoin(tables, stmt)
  {
    ResultRow(map q | q in names && !IsString(tables, stmt, q) :: IntNamed(tables, stmt, q, l, r),
              map q | q in names && IsString(tables, stmt, q) :: StringNamed(tables, stmt, q, l, r))
  }

  /** The inner loop: one left row against the first j right rows. */
  function InnerLoop(tables: TableMap, stmt: SelectStatement, names: seq<string>, l: Row, rs: seq<Row>, j: nat)
    : seq<ResultRow>
    requires IsJoin(tables, stmt) && j <= |rs|
  {
    if j == 0 then []
    else if Matches(tables, stmt, l, rs[j - 1]) then
      InnerLoop(tables, stmt, names, l, rs, j - 1) + [PairResult(tables, stmt, names, l, rs[j - 1])]
    else InnerLoop(tables, stmt, names, l, rs, j - 1)
  }

  /** The outer loop over the first i left rows. */
  function OuterLoop(tables: TableMap, stmt: SelectStatement, names: seq<string>, ls: seq<Row>, rs: seq<Row>, i: nat)
    : seq<ResultRow>
    requires IsJoin(tables, stmt) && i <= |ls|
  {
    if i == 0 then []
    else OuterLoop(tables, stmt, names, ls, rs, i - 1) + InnerLoop(tables, stmt, names, ls[i - 1], rs, |rs|)
  }

  function JoinIntNames(tables: TableMap, stmt: SelectStatement, names: seq<string>): set<string>
    requires IsJoin(tables, stmt)
  {
    set q | q in names && !IsString(tables, stmt, q)
  }

  /** Plaintext execution of a join: nested loops, then ORDER BY its integer columns,
      then LIMIT. */
  function PlainJoin(tables: TableMap, stmt: SelectStatement, ls: seq<Row>, rs: seq<Row>): seq<ResultRow>
    requires IsJoin(tables, stmt)
  {
    var names := Projected(stmt, tables[stmt.tableName]);
    SortAndLimit(OuterLoop(tables, stmt, names, ls, rs, |ls|), Present(stmt.orderBy, JoinIntNames(tables, stmt, names)),
                 stmt.limitCount)
  }
}
