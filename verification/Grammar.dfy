// The grammar the parser implements, as functions on the text that is left.

module Grammar {
  import opened Common
  import opened Ast
  import opened Lexer

  // ---- Expressions ----

  /** The comparison operator at the front of the text, if any. */
  function ReadOperator(s: string): (r: Option<Parsed<CmpOp>>)
    ensures r.Some? ==> |r.value.rest| < |s|
  {
    if |s| > 1 && s[0] == '!' && s[1] == '=' then Some(Parsed(NotEqual, s[2..]))
    else if |s| > 1 && s[0] == '>' && s[1] == '=' then Some(Parsed(GreaterEqual, s[2..]))
    else if |s| > 1 && s[0] == '<' && s[1] == '=' then Some(Parsed(LessEqual, s[2..]))
    else if |s| > 0 && s[0] == '=' then Some(Parsed(Equal, s[1..]))
    else if |s| > 0 && s[0] == '>' then Some(Parsed(GreaterThan, s[1..]))
    else if |s| > 0 && s[0] == '<' then Some(Parsed(LessThan, s[1..]))
    else None
  }

  predicate Shorter<T>(r: Result<Parsed<T>>, s: string) {
    r.Ok? ==> |r.value.rest| < |s|
  }

  function ExprOr(s: string): (r: Result<Parsed<Expr>>)
    ensures Shorter(r, s)
    decreases |s|, 5
  {
    var left := ExprAnd(s);
    if left.Err? then left else OrTail(left.value.value, left.value.rest)
  }

  /** Further OR operands, folded to the left. */
  function OrTail(left: Expr, s: string): (r: Result<Parsed<Expr>>)
    ensures r.Ok? ==> |r.value.rest| <= |s|
    decreases |s|, 4
  {
    var k := TryKeyword("OR", s);
    if !k.value then Ok(Parsed(left, k.rest))
    else
      var right := ExprAnd(k.rest);
      if right.Err? then right else OrTail(Or(left, right.value.value), right.value.rest)
  }

  function ExprAnd(s: string): (r: Result<Parsed<Expr>>)
    ensures Shorter(r, s)
    decreases |s|, 3
  {
    var left := ExprNot(s);
    if left.Err? then left else AndTail(left.value.value, left.value.rest)
  }

  function AndTail(left: Expr, s: string): (r: Result<Parsed<Expr>>)
    ensures r.Ok? ==> |r.value.rest| <= |s|
    decreases |s|, 2
  {
    var k := TryKeyword("AND", s);
    if !k.value then Ok(Parsed(left, k.rest))
    else
      var right := ExprNot(k.rest);
      if right.Err? then right else AndTail(And(left, right.value.value), right.value.rest)
  }

  function ExprNot(s: string): (r: Result<Parsed<Expr>>)
    ensures Shorter(r, s)
    decreases |s|, 2
  {
    var k := TryKeyword("NOT", s);
    if !k.value then ExprComparison(k.rest)
    else
      var operand := ExprNot(k.rest);
      if operand.Err? then operand else Ok(Parsed(Not(operand.value.value), operand.value.rest))
  }

  function ExprComparison(s: string): (r: Result<Parsed<Expr>>)
    ensures Shorter(r, s)
    decreases |s|, 1
  {
    var left := ExprPrimary(s);
    if left.Err? then left else ComparisonTail(left.value.value, SkipSpaces(left.value.rest))
  }

  /** The operator and right operand, when there is an operator. */
  function ComparisonTail(left: Expr, s: string): (r: Result<Parsed<Expr>>)
    ensures r.Ok? ==> |r.value.rest| <= |s|
    decreases |s|, 1
  {
    var op := ReadOperator(s);
    if op.None? then Ok(Parsed(left, s))
    else
      var right := ExprPrimary(op.value.rest);
      if right.Err? then right
      else Ok(Parsed(Compare(op.value.value, left, right.value.value), right.value.rest))
  }

  function ExprPrimary(s: string): (r: Result<Parsed<Expr>>)
    ensures Shorter(r, s)
    decreases |s|, 0
  {
    var t := SkipSpaces(s);
    if t == "" then Err(SyntaxError)
    else if t[0] == '(' then
      var inner := ExprOr(t[1..]);
      if inner.Err? then inner
      else
        var close := ExpectChar(')', inner.value.rest);
        if close.Err? then Err(close.error) else Ok(Parsed(inner.value.value, close.value))
    else if IsDigit(t[0]) || t[0] == '-' then
      var v := ReadInt(t);
      if v.Err? then Err(v.error) else Ok(Parsed(IntLiteral(v.value.value), v.value.rest))
    else if t[0] == '\'' then
      var text := ReadString(t);
      if text.Err? then Err(text.error) else Ok(Parsed(StringLiteral(text.value.value), text.value.rest))
    else
      var name := ReadName(t);
      if name.Err? then Err(name.error) else Ok(Parsed(ColumnRef(name.value.value), name.value.rest))
  }

  // ---- Statements ----

  /** Further names, each after a comma. */
  function MoreNames(names: seq<string>, s: string): (r: Result<Parsed<seq<string>>>)
    ensures r.Ok? ==> |r.value.rest| <= |s|
    decreases |s|
  {
    var t := SkipSpaces(s);
    if t == "" || t[0] != ',' then Ok(Parsed(names, t))
    else
      var name := ReadName(t[1..]);
      if name.Err? then Err(name.error) else MoreNames(names + [name.value.value], name.value.rest)
  }

  function Projections(s: string): (r: Result<Parsed<seq<string>>>)
    ensures Shorter(r, s)
  {
    var t := SkipSpaces(s);
    if t != "" && t[0] == '*' then Ok(Parsed([], t[1..]))
    else
      var name := ReadName(t);
      if name.Err? then Err(name.error) else MoreNames([name.value.value], name.value.rest)
  }

  /** Words that end a table reference; compared as written, unlike keywords. */
  predicate Reserved(word: string) {
    word == "WHERE" || word == "ORDER" || word == "LIMIT" || word == "JOIN" || word == "INNER" || word == "ON"
  }

  /** The optional alias after a table name. */
  function Aliased(table: string, s: string): (r: Result<Parsed<TableRef>>)
    ensures r.Ok? ==> |r.value.rest| <= |s|
  {
    var k := TryKeyword("AS", s);
    if k.value then
      var alias := ReadIdent(k.rest);
      if alias.Err? then Err(alias.error) else Ok(Parsed(TableRef(table, alias.value.value), alias.value.rest))
    else
      var candidate := ReadIdent(k.rest);
      if candidate.Ok? && !Reserved(candidate.value.value) then
        Ok(Parsed(TableRef(table, candidate.value.value), candidate.value.rest))
      else Ok(Parsed(TableRef(table, table), k.rest))
  }

  function Table(s: string): (r: Result<Parsed<TableRef>>)
    ensures Shorter(r, s)
  {
    var name := ReadIdent(s);
    if name.Err? then Err(name.error) else Aliased(name.value.value, name.value.rest)
  }

  function OneJoin(s: string): (r: Result<Parsed<JoinClause>>)
    ensures Shorter(r, s)
  {
    var table := Table(s);
    if table.Err? then Err(table.error)
    else
      var on := ExpectKeyword("ON", table.value.rest);
      if on.Err? then Err(on.error)
      else
        var condition := ExprOr(on.value);
        if condition.Err? then Err(condition.error)
        else Ok(Parsed(JoinClause(table.value.value, condition.value.value), condition.value.rest))
  }

  /** INNER is skipped even when no JOIN follows it. */
  function Joins(joins: seq<JoinClause>, s: string): (r: Result<Parsed<seq<JoinClause>>>)
    ensures r.Ok? ==> |r.value.rest| <= |s|
    decreases |s|
  {
    var k := TryKeyword("JOIN", TryKeyword("INNER", s).rest);
    if !k.value then Ok(Parsed(joins, k.rest))
    else
      var join := OneJoin(k.rest);
      if join.Err? then Err(join.error) else Joins(joins + [join.value.value], join.value.rest)
  }

  function Where(s: string): (r: Result<Parsed<Option<Expr>>>)
    ensures r.Ok? ==> |r.value.rest| <= |s|
  {
    var k := TryKeyword("WHERE", s);
    if !k.value then Ok(Parsed(None, k.rest))
    else
      var e := ExprOr(k.rest);
      if e.Err? then Err(e.error) else Ok(Parsed(Some(e.value.value), e.value.rest))
  }

  /** A direction: DESC, or the optional ASC. */
  function Direction(s: string): (r: Parsed<SortDirection>)
    ensures |r.rest| <= |s|
  {
    var k := TryKeyword("DESC", s);
    if k.value then Parsed(Descending, k.rest) else Parsed(Ascending, TryKeyword("ASC", k.rest).rest)
  }

  function OneOrder(s: string): (r: Result<Parsed<OrderByColumn>>)
    ensures Shorter(r, s)
  {
    var name := ReadName(s);
    if name.Err? then Err(name.error)
    else
      var d := Direction(name.value.rest);
      Ok(Parsed(OrderByColumn(name.value.value, d.value), d.rest))
  }

  function MoreOrders(orders: seq<OrderByColumn>, s: string): (r: Result<Parsed<seq<OrderByColumn>>>)
    ensures r.Ok? ==> |r.value.rest| <= |s|
    decreases |s|
  {
    var t := SkipSpaces(s);
    if t == "" || t[0] != ',' then Ok(Parsed(orders, t))
    else
      var order := OneOrder(t[1..]);
      if order.Err? then Err(order.error) else MoreOrders(orders + [order.value.value], order.value.rest)
  }

  function OrderList(s: string): (r: Result<Parsed<seq<OrderByColumn>>>)
    ensures r.Ok? ==> |r.value.rest| <= |s|
  {
    var order := OneOrder(s);
    if order.Err? then Err(order.error) else MoreOrders([order.value.value], order.value.rest)
  }

  function OrderBy(s: string): (r: Result<Parsed<seq<OrderByColumn>>>)
    ensures r.Ok? ==> |r.value.rest| <= |s|
  {
    var k := TryKeyword("ORDER", s);
    if !k.value then Ok(Parsed([], k.rest))
    else
      var after := ExpectKeyword("BY", k.rest);
      if after.Err? then Err(after.error) else OrderList(after.value)
  }

  function LimitCount(s: string): (r: Result<Parsed<int>>)
    ensures r.Ok? ==> |r.value.rest| <= |s|
  {
    var k := TryKeyword("LIMIT", s);
    if !k.value then Ok(Parsed(-1, k.rest))
    else
      var v := ReadInt(k.rest);
      if v.Err? then v else if v.value.value < 0 then Err(SyntaxError) else v
  }

  /** Everything after the table reference. */
  function Clauses(projections: seq<string>, table: TableRef, s: string): Result<Parsed<SelectStatement>> {
    var joins := Joins([], s);
    if joins.Err? then Err(joins.error)
    else
      var filter := Where(joins.value.rest);
      if filter.Err? then Err(filter.error)
      else
        var orderBy := OrderBy(filter.value.rest);
        if orderBy.Err? then Err(orderBy.error)
        else
          var limit := LimitCount(orderBy.value.rest);
          if limit.Err? then Err(limit.error)
          else
            Ok(Parsed(SelectStatement(projections, table.tableName, table.alias, joins.value.value, filter.value.value,
                                     orderBy.value.value, limit.value.value), limit.value.rest))
  }

  function Select(s: string): Result<Parsed<SelectStatement>> {
    var select := ExpectKeyword("SELECT", s);
    if select.Err? then Err(select.error)
    else
      var projections := Projections(select.value);
      if projections.Err? then Err(projections.error)
      else
        var from := ExpectKeyword("FROM", projections.value.rest);
        if from.Err? then Err(from.error)
        else
          var table := Table(from.value);
          if table.Err? then Err(table.error)
          else Clauses(projections.value.value, table.value.value, table.value.rest)
  }

  /** Only white space and one semicolon may follow a statement. */
  predicate OnlyTerminator(s: string) {
    var t := SkipSpaces(s);
    t == "" || (t[0] == ';' && SkipSpaces(t[1..]) == "")
  }

  function Statement(sql: string): Result<SelectStatement> {
    var stmt := Select(sql);
    if stmt.Err? then Err(stmt.error)
    else if OnlyTerminator(stmt.value.rest) then Ok(stmt.value.value)
    else Err(SyntaxError)
  }
}
