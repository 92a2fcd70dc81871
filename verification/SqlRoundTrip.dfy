// The statement round trip: parsing the printed text of a statement, and when it
// gives the statement back.

module SqlRoundTrip {
  import opened Common
  import opened Ast
  import opened Lexer
  import opened Printer
  import opened Grammar
  import opened RoundTrip
  import opened ParserOutput
  import opened ShapeNeeded
  import opened StatementRoundTrip

  // ---- The texts between the clauses ----

  lemma LimitTail(limit: int)
    ensures Tail(LimitText(limit))
    ensures forall kw :: ClauseWord(kw) && kw != "LIMIT" ==> !Begins(LimitText(limit), kw)
  {
    var text := LimitText(limit);
    if limit >= 0 {
      assert " LIMIT " == " " + "LIMIT" + " ";
      BeginsText("LIMIT", IntText(limit), text);
      forall kw | ClauseWord(kw) && Begins(text, kw)
        ensures kw == "LIMIT"
      {
        OneWord(text, "LIMIT", kw);
      }
    }
  }

  function OrderTailText(stmt: SelectStatement): string { OrderText(stmt.orderBy) + LimitText(stmt.limitCount) }

  function WhereTailText(stmt: SelectStatement): string { WhereText(stmt.whereClause) + OrderTailText(stmt) }

  function JoinTailText(stmt: SelectStatement): string { JoinsText(stmt.joins, 0) + WhereTailText(stmt) }

  lemma OrderTail(stmt: SelectStatement)
    ensures Tail(OrderTailText(stmt))
    ensures forall kw :: ClauseWord(kw) && kw != "LIMIT" && kw != "ORDER" ==> !Begins(OrderTailText(stmt), kw)
  {
    var text := OrderTailText(stmt);
    LimitTail(stmt.limitCount);
    if stmt.orderBy == [] {
      assert text == LimitText(stmt.limitCount);
    } else {
      var list := OrdersText(stmt.orderBy, 0) + LimitText(stmt.limitCount);
      Assoc(" ORDER BY ", OrdersText(stmt.orderBy, 0), LimitText(stmt.limitCount));
      OrderByText(list);
      BeginsText("ORDER", "BY" + (" " + list), text);
      forall kw | ClauseWord(kw) && Begins(text, kw)
        ensures kw == "ORDER"
      {
        OneWord(text, "ORDER", kw);
      }
    }
  }

  lemma WhereTail(stmt: SelectStatement)
    ensures Tail(WhereTailText(stmt))
    ensures !Begins(WhereTailText(stmt), "JOIN") && !Begins(WhereTailText(stmt), "FROM")
  {
    var text, tail := WhereTailText(stmt), OrderTailText(stmt);
    OrderTail(stmt);
    if stmt.whereClause.None? {
      assert text == tail;
    } else {
      var e := ToSql(stmt.whereClause.value);
      Assoc(" WHERE ", e, tail);
      assert " WHERE " == " " + "WHERE" + " ";
      BeginsText("WHERE", e + tail, text);
      if Begins(text, "JOIN") {
        OneWord(text, "WHERE", "JOIN");
      }
      if Begins(text, "FROM") {
        OneWord(text, "WHERE", "FROM");
      }
    }
  }

  // ---- Forward ----

  predicate ReadableStatement(stmt: SelectStatement) {
    && LexicalStatement(stmt)
    && ReadableJoins(stmt.joins)
    && (stmt.whereClause.Some? ==> Readable(stmt.whereClause.value, true))
  }

  lemma JoinsClause(stmt: SelectStatement, s: string)
    requires ReadableStatement(stmt) && SkipSpaces(s) == SkipSpaces(JoinTailText(stmt))
    ensures Joins([], s) == Ok(Parsed(stmt.joins, SkipSpaces(WhereTailText(stmt))))
  {
    WhereTail(stmt);
    JoinsRead(stmt.joins, 0, [], WhereTailText(stmt), s);
  }

  lemma WhereClause(stmt: SelectStatement)
    requires ReadableStatement(stmt)
    ensures Where(SkipSpaces(WhereTailText(stmt))) == Ok(Parsed(stmt.whereClause, SkipSpaces(OrderTailText(stmt))))
  {
    OrderTail(stmt);
    WhereReads(stmt.whereClause, OrderTailText(stmt), SkipSpaces(WhereTailText(stmt)));
  }

  lemma OrderClause(stmt: SelectStatement)
    requires ReadableStatement(stmt)
    ensures OrderBy(SkipSpaces(OrderTailText(stmt))) == Ok(Parsed(stmt.orderBy, SkipSpaces(LimitText(stmt.limitCount))))
  {
    LimitTail(stmt.limitCount);
    OrderReads(stmt.orderBy, LimitText(stmt.limitCount), SkipSpaces(OrderTailText(stmt)));
  }

  lemma ClausesRead(stmt: SelectStatement, s: string)
    requires ReadableStatement(stmt) && SkipSpaces(s) == SkipSpaces(JoinTailText(stmt))
    ensures Clauses(stmt.projections, TableRef(stmt.tableName, stmt.tableAlias), s) == Ok(Parsed(stmt, ""))
  {
    JoinsClause(stmt, s);
    WhereClause(stmt);
    OrderClause(stmt);
    LimitReads(stmt.limitCount, SkipSpaces(LimitText(stmt.limitCount)));
  }

  function FromText(stmt: SelectStatement): string {
    stmt.tableName + (AliasText(TableRef(stmt.tableName, stmt.tableAlias)) + JoinTailText(stmt))
  }

  lemma FromSteps(stmt: SelectStatement, s: string)
    requires LexicalStatement(stmt) && SkipSpaces(s) == SkipSpaces(FromText(stmt))
    ensures
      var table := Table(s);
      && table.Ok? && table.value.value == TableRef(stmt.tableName, stmt.tableAlias)
      && SkipSpaces(table.value.rest) == SkipSpaces(JoinTailText(stmt))
  {
    WhereTail(stmt);
    JoinsEnd(stmt.joins, 0, WhereTailText(stmt));
    TableReads(TableRef(stmt.tableName, stmt.tableAlias), JoinTailText(stmt), s);
  }

  lemma FromKeyword(text: string, s: string)
    requires SkipSpaces(s) == SkipSpaces(" FROM " + text)
    ensures ExpectKeyword("FROM", s) == Ok(" " + text) && SkipSpaces(" " + text) == SkipSpaces(text)
    ensures ListEnds(" FROM " + text)
  {
    assert " FROM " == " " + "FROM" + " ";
    KeywordThen("FROM", text, s);
    BeginsText("FROM", text, " FROM " + text);
    TailEnds(" FROM " + text);
  }

  lemma SelectKeyword(text: string)
    ensures ExpectKeyword("SELECT", "SELECT " + text) == Ok(" " + text)
    ensures SkipSpaces(" " + text) == SkipSpaces(text)
  {
    assert "SELECT " + text == "SELECT" + (" " + text);
    WordRead("SELECT", " " + text);
    assert ("SELECT" + (" " + text))[0] == 'S';
    SkipOneSpace(text);
  }

  /** Whatever its predicates, a lexical statement is read up to its joins. */
  lemma SelectSteps(stmt: SelectStatement) returns (s: string)
    requires LexicalStatement(stmt)
    ensures SkipSpaces(s) == SkipSpaces(JoinTailText(stmt))
    ensures Select(StatementText(stmt)) == Clauses(stmt.projections, TableRef(stmt.tableName, stmt.tableAlias), s)
  {
    var from := " FROM " + FromText(stmt);
    var body := ProjectionText(stmt.projections) + from;
    assert StatementText(stmt) == "SELECT " + body;
    SelectKeyword(body);
    FromKeyword(FromText(stmt), from);
    ProjectionsRead(stmt.projections, from, " " + body);
    FromKeyword(FromText(stmt), Projections(" " + body).value.rest);
    FromSteps(stmt, " " + FromText(stmt));
    s := Table(" " + FromText(stmt)).value.rest;
  }

  lemma SelectRead(stmt: SelectStatement)
    requires ReadableStatement(stmt)
    ensures Select(StatementText(stmt)) == Ok(Parsed(stmt, ""))
  {
    var s := SelectSteps(stmt);
    ClausesRead(stmt, s);
  }

  // ---- Without the shape ----

  predicate Unquoted(joins: seq<JoinClause>) {
    forall k :: 0 <= k < |joins| ==> EmbeddedQuotes(joins[k].condition) == 0
  }

  /** Reading joins only adds to those read. */
  lemma {:induction false} JoinsExtend(joins: seq<JoinClause>, s: string)
    ensures Joins(joins, s).Ok? ==> joins <= Joins(joins, s).value.value
    decreases |s|
  {
    var k := TryKeyword("JOIN", TryKeyword("INNER", s).rest);
    if k.value && OneJoin(k.rest).Ok? {
      JoinsExtend(joins + [OneJoin(k.rest).value.value], OneJoin(k.rest).value.rest);
    }
  }

  /** A join whose condition lacks the shape is not read as itself. */
  lemma JoinMisses(join: JoinClause, tail: string, s: string)
    requires LexicalTable(join.rightTable) && Printable(join.condition, true) && !Shaped(join.condition) && Tail(tail)
    requires SkipSpaces(s) == SkipSpaces(JoinBody(join, tail))
    ensures OneJoin(s).Ok? ==> OneJoin(s).value.value != join
  {
    JoinSteps(join, tail, s);
    TailEnds(tail);
    WholeOf(join.condition, tail);
  }

  lemma JoinsStepMisses(joins: seq<JoinClause>, k: nat, read: seq<JoinClause>, tail: string, s: string)
    requires k < |joins| && read == joins[..k]
    requires LexicalTable(joins[k].rightTable) && Printable(joins[k].condition, true) && !Shaped(joins[k].condition)
    requires Tail(tail) && SkipSpaces(s) == SkipSpaces(" JOIN " + JoinBody(joins[k], tail))
    ensures Joins(read, s).Ok? ==> Joins(read, s).value.value != joins
  {
    var body := JoinBody(joins[k], tail);
    JoinKeyword(body, s);
    JoinMisses(joins[k], tail, " " + body);
    var one := OneJoin(" " + body);
    if one.Ok? {
      JoinsExtend(read + [one.value.value], one.value.rest);
      assert (read + [one.value.value])[k] != joins[k];
    }
  }

  predicate ShapedFrom(joins: seq<JoinClause>, k: nat) {
    forall j :: k <= j < |joins| ==> Shaped(joins[j].condition)
  }

  predicate JoinsKept(r: Result<Parsed<seq<JoinClause>>>, joins: seq<JoinClause>) { r.Ok? && r.value.value == joins }

  lemma NextJoin(joins: seq<JoinClause>, k: nat, tail: string)
    requires k < |joins| && LexicalJoins(joins) && Tail(tail)
    ensures JoinsText(joins, k) + tail == " JOIN " + JoinBody(joins[k], JoinsText(joins, k + 1) + tail)
    ensures Tail(JoinsText(joins, k + 1) + tail)
  {
    Assoc(JoinText(joins[k]), JoinsText(joins, k + 1), tail);
    JoinBodyText(joins[k], JoinsText(joins, k + 1) + tail);
    JoinsEnd(joins, k + 1, tail);
  }

  /** One step: without the shape the list cannot be kept any more. */
  lemma JoinsStepEither(joins: seq<JoinClause>, k: nat, read: seq<JoinClause>, rest: string, s: string)
    requires k < |joins| && LexicalJoins(joins) && Unquoted(joins) && read == joins[..k]
    requires Tail(rest) && SkipSpaces(s) == SkipSpaces(" JOIN " + JoinBody(joins[k], rest))
    requires Shaped(joins[k].condition) && JoinsKept(Joins(read + [joins[k]], rest), joins) ==> ShapedFrom(joins, k + 1)
    ensures JoinsKept(Joins(read, s), joins) ==> ShapedFrom(joins, k)
  {
    if Shaped(joins[k].condition) {
      JoinsStep(read, joins[k], rest, s);
    } else {
      JoinsStepMisses(joins, k, read, rest, s);
    }
  }

  lemma {:induction false} JoinsMiss(joins: seq<JoinClause>, k: nat, read: seq<JoinClause>, tail: string, s: string)
    requires k <= |joins| && LexicalJoins(joins) && Unquoted(joins) && read == joins[..k]
    requires Tail(tail) && SkipSpaces(s) == SkipSpaces(JoinsText(joins, k) + tail)
    ensures JoinsKept(Joins(read, s), joins) ==> ShapedFrom(joins, k)
    decreases |joins| - k
  {
    if k < |joins| {
      var rest := JoinsText(joins, k + 1) + tail;
      NextJoin(joins, k, tail);
      Extended(joins, k, read);
      JoinsMiss(joins, k + 1, read + [joins[k]], tail, rest);
      JoinsStepEither(joins, k, read, rest, s);
    }
  }

  lemma WhereMisses(e: Expr, tail: string, s: string)
    requires Printable(e, true) && !Shaped(e) && Tail(tail) && SkipSpaces(s) == SkipSpaces(WhereText(Some(e)) + tail)
    ensures Where(s).Ok? ==> Where(s).value.value != Some(e)
  {
    Assoc(" WHERE ", ToSql(e), tail);
    WhereKeyword(ToSql(e) + tail, s);
    TailEnds(tail);
    WholeOf(e, tail);
  }

  lemma WhereClauseMisses(stmt: SelectStatement, s: string)
    requires LexicalStatement(stmt) && StatementEmbedded(stmt) == 0 && SkipSpaces(s) == SkipSpaces(WhereTailText(stmt))
    ensures Where(s).Ok? && Where(s).value.value == stmt.whereClause && stmt.whereClause.Some? ==>
      Shaped(stmt.whereClause.value)
  {
    OrderTail(stmt);
    if stmt.whereClause.Some? && !Shaped(stmt.whereClause.value) {
      WhereMisses(stmt.whereClause.value, OrderTailText(stmt), s);
    }
  }

  lemma JoinsClauseMisses(stmt: SelectStatement, s: string)
    requires LexicalStatement(stmt) && StatementEmbedded(stmt) == 0 && SkipSpaces(s) == SkipSpaces(JoinTailText(stmt))
    requires JoinsKept(Joins([], s), stmt.joins)
    ensures ShapedJoins(stmt.joins) && Joins([], s) == Ok(Parsed(stmt.joins, SkipSpaces(WhereTailText(stmt))))
  {
    EachUnquoted(stmt);
    WhereTail(stmt);
    JoinsMiss(stmt.joins, 0, [], WhereTailText(stmt), s);
    JoinsRead(stmt.joins, 0, [], WhereTailText(stmt), s);
  }

  lemma ClausesParts(projections: seq<string>, table: TableRef, s: string)
    requires Clauses(projections, table, s).Ok?
    ensures
      var stmt := Clauses(projections, table, s).value.value;
      && JoinsKept(Joins([], s), stmt.joins)
      && Where(Joins([], s).value.rest).Ok? && Where(Joins([], s).value.rest).value.value == stmt.whereClause
  {
  }

  lemma ClausesMiss(stmt: SelectStatement, s: string)
    requires LexicalStatement(stmt) && StatementEmbedded(stmt) == 0 && SkipSpaces(s) == SkipSpaces(JoinTailText(stmt))
    requires
      var r := Clauses(stmt.projections, TableRef(stmt.tableName, stmt.tableAlias), s);
      r.Ok? && r.value.value == stmt
    ensures ShapedStatement(stmt)
  {
    ClausesParts(stmt.projections, TableRef(stmt.tableName, stmt.tableAlias), s);
    JoinsClauseMisses(stmt, s);
    WhereClauseMisses(stmt, SkipSpaces(WhereTailText(stmt)));
  }

  /** A lexical, quote-free statement that is read as itself has the shape. */
  lemma StatementMisses(stmt: SelectStatement)
    requires LexicalStatement(stmt) && StatementEmbedded(stmt) == 0 && Statement(StatementText(stmt)) == Ok(stmt)
    ensures ShapedStatement(stmt)
  {
    var s := SelectSteps(stmt);
    ClausesMiss(stmt, s);
  }

  // ---- What the statement parser can produce ----

  ghost predicate ReadsNames(r: Result<Parsed<seq<string>>>, s: string) {
    r.Ok? ==> LexicalNames(r.value.value) && Quotes(r.value.rest) == Quotes(s)
  }

  lemma {:induction false} MoreNamesOutput(names: seq<string>, s: string)
    requires LexicalNames(names)
    ensures ReadsNames(MoreNames(names, s), s)
    decreases |s|
  {
    var t := SkipSpaces(s);
    SkipKeepsQuotes(s);
    if t != "" && t[0] == ',' {
      DropWord(t, 1);
      if ReadName(t[1..]).Ok? {
        NameOutput(t[1..]);
        MoreNamesOutput(names + [ReadName(t[1..]).value.value], ReadName(t[1..]).value.rest);
      }
    }
  }

  lemma ProjectionsOutput(s: string)
    ensures ReadsNames(Projections(s), s)
  {
    var t := SkipSpaces(s);
    SkipKeepsQuotes(s);
    if t != "" && t[0] == '*' {
      DropWord(t, 1);
    } else if ReadName(t).Ok? {
      NameOutput(t);
      MoreNamesOutput([ReadName(t).value.value], ReadName(t).value.rest);
    }
  }

  lemma TableOutput(s: string)
    requires Table(s).Ok?
    ensures LexicalTable(Table(s).value.value) && Quotes(Table(s).value.rest) == Quotes(s)
  {
    IdentOutput(s);
    var rest := ReadIdent(s).value.rest;
    KeywordQuotes("AS", rest);
    var k := TryKeyword("AS", rest);
    if ReadIdent(k.rest).Ok? {
      IdentOutput(k.rest);
    }
  }

  lemma JoinOutput(s: string)
    requires OneJoin(s).Ok?
    ensures
      var r := OneJoin(s).value;
      && LexicalTable(r.value.rightTable) && Lexical(r.value.condition, true)
      && Quotes(s) == QuotesRead(r.value.condition) + Quotes(r.rest)
  {
    TableOutput(s);
    KeywordQuotes("ON", Table(s).value.rest);
    OrOutput(ExpectKeyword("ON", Table(s).value.rest).value);
  }

  /** Quotes read by the join conditions from the k-th on. */
  function JoinsQuotes(joins: seq<JoinClause>, k: nat): nat
    requires k <= |joins|
    decreases |joins| - k
  {
    if k == |joins| then 0 else QuotesRead(joins[k].condition) + JoinsQuotes(joins, k + 1)
  }

  lemma {:induction false} JoinsQuotesSnoc(joins: seq<JoinClause>, join: JoinClause, k: nat)
    requires k <= |joins|
    ensures JoinsQuotes(joins + [join], k) == JoinsQuotes(joins, k) + QuotesRead(join.condition)
    decreases |joins| - k
  {
    if k < |joins| {
      JoinsQuotesSnoc(joins, join, k + 1);
    }
  }

  lemma {:induction false} JoinsOutput(joins: seq<JoinClause>, s: string)
    requires LexicalJoins(joins)
    ensures
      var r := Joins(joins, s);
      r.Ok? ==>
        && LexicalJoins(r.value.value)
        && JoinsQuotes(joins, 0) + Quotes(s) == JoinsQuotes(r.value.value, 0) + Quotes(r.value.rest)
    decreases |s|
  {
    KeywordQuotes("INNER", s);
    var inner := TryKeyword("INNER", s).rest;
    KeywordQuotes("JOIN", inner);
    var k := TryKeyword("JOIN", inner);
    if k.value && OneJoin(k.rest).Ok? {
      JoinOutput(k.rest);
      JoinsQuotesSnoc(joins, OneJoin(k.rest).value.value, 0);
      JoinsOutput(joins + [OneJoin(k.rest).value.value], OneJoin(k.rest).value.rest);
    }
  }

  function WhereQuotes(where: Option<Expr>): nat {
    if where.Some? then QuotesRead(where.value) else 0
  }

  lemma WhereOutput(s: string)
    requires Where(s).Ok?
    ensures
      var r := Where(s).value;
      && (r.value.Some? ==> Lexical(r.value.value, true))
      && Quotes(s) == WhereQuotes(r.value) + Quotes(r.rest)
  {
    KeywordQuotes("WHERE", s);
    OrOutput(TryKeyword("WHERE", s).rest);
  }

  lemma OneOrderOutput(s: string)
    requires OneOrder(s).Ok?
    ensures IsName(OneOrder(s).value.value.columnName) && Quotes(OneOrder(s).value.rest) == Quotes(s)
  {
    NameOutput(s);
    var rest := ReadName(s).value.rest;
    KeywordQuotes("DESC", rest);
    KeywordQuotes("ASC", TryKeyword("DESC", rest).rest);
  }

  lemma {:induction false} MoreOrdersOutput(orders: seq<OrderByColumn>, s: string)
    requires LexicalOrder(orders)
    ensures
      var r := MoreOrders(orders, s);
      r.Ok? ==> LexicalOrder(r.value.value) && Quotes(r.value.rest) == Quotes(s)
    decreases |s|
  {
    var t := SkipSpaces(s);
    SkipKeepsQuotes(s);
    if t != "" && t[0] == ',' {
      DropWord(t, 1);
      if OneOrder(t[1..]).Ok? {
        OneOrderOutput(t[1..]);
        MoreOrdersOutput(orders + [OneOrder(t[1..]).value.value], OneOrder(t[1..]).value.rest);
      }
    }
  }

  lemma OrderOutput(s: string)
    requires OrderBy(s).Ok?
    ensures LexicalOrder(OrderBy(s).value.value) && Quotes(OrderBy(s).value.rest) == Quotes(s)
  {
    KeywordQuotes("ORDER", s);
    var k := TryKeyword("ORDER", s);
    if k.value {
      KeywordQuotes("BY", k.rest);
      var list := ExpectKeyword("BY", k.rest).value;
      OneOrderOutput(list);
      MoreOrdersOutput([OneOrder(list).value.value], OneOrder(list).value.rest);
    }
  }

  lemma LimitOutput(s: string)
    requires LimitCount(s).Ok?
    ensures -1 <= LimitCount(s).value.value <= INT64_MAX && Quotes(LimitCount(s).value.rest) == Quotes(s)
  {
    KeywordQuotes("LIMIT", s);
    if TryKeyword("LIMIT", s).value {
      IntOutput(TryKeyword("LIMIT", s).rest);
    }
  }

  function StatementQuotes(stmt: SelectStatement): nat { JoinsQuotes(stmt.joins, 0) + WhereQuotes(stmt.whereClause) }

  lemma ClausesOutput(projections: seq<string>, table: TableRef, s: string)
    requires LexicalNames(projections) && LexicalTable(table) && Clauses(projections, table, s).Ok?
    ensures
      var r := Clauses(projections, table, s).value;
      LexicalStatement(r.value) && Quotes(s) == StatementQuotes(r.value) + Quotes(r.rest)
  {
    JoinsOutput([], s);
    var joins := Joins([], s).value;
    WhereOutput(joins.rest);
    var filter := Where(joins.rest).value;
    OrderOutput(filter.rest);
    LimitOutput(OrderBy(filter.rest).value.rest);
  }

  lemma TerminatorQuotes(s: string)
    requires OnlyTerminator(s)
    ensures Quotes(s) == 0
  {
    SkipKeepsQuotes(s);
    var t := SkipSpaces(s);
    if t != "" {
      DropWord(t, 1);
      SkipKeepsQuotes(t[1..]);
    }
  }

  /** Whatever the text: a statement the parser returns is lexical, and its string
      literals account for every quote of the text. */
  lemma StatementOutput(sql: string)
    requires Statement(sql).Ok?
    ensures LexicalStatement(Statement(sql).value)
    ensures Quotes(sql) == StatementQuotes(Statement(sql).value)
  {
    KeywordQuotes("SELECT", sql);
    var afterSelect := ExpectKeyword("SELECT", sql).value;
    ProjectionsOutput(afterSelect);
    var projections := Projections(afterSelect).value;
    KeywordQuotes("FROM", projections.rest);
    var afterFrom := ExpectKeyword("FROM", projections.rest).value;
    TableOutput(afterFrom);
    var table := Table(afterFrom).value;
    ClausesOutput(projections.value, table.value, table.rest);
    TerminatorQuotes(Clauses(projections.value, table.value, table.rest).value.rest);
  }

  // ---- The printer writes each embedded quote once ----

  function PrintedWith(e: Expr): nat { 2 * StringCount(e) + EmbeddedQuotes(e) }

  function JoinsPrinted(joins: seq<JoinClause>, k: nat): nat
    requires k <= |joins|
    decreases |joins| - k
  {
    if k == |joins| then 0 else PrintedWith(joins[k].condition) + JoinsPrinted(joins, k + 1)
  }

  lemma IdentWithoutQuotes(s: string)
    requires IsIdent(s)
    ensures Quotes(s) == 0
  {
    NoQuotesIn(s);
  }

  lemma {:induction false} NamesPrinted(names: seq<string>, k: nat)
    requires LexicalNames(names) && k <= |names|
    ensures Quotes(NamesText(names, k)) == 0
    decreases |names| - k
  {
    if k < |names| {
      NamesPrinted(names, k + 1);
      var comma := if k > 0 then ", " else "";
      PlainText(comma);
      NameWithoutQuotes(names[k]);
      Quotes3(comma, names[k], NamesText(names, k + 1));
    }
  }

  lemma ProjectionsPrinted(projections: seq<string>)
    requires LexicalNames(projections)
    ensures Quotes(ProjectionText(projections)) == 0
  {
    if projections == [] {
      PlainText("*");
    } else {
      NamesPrinted(projections, 0);
    }
  }

  lemma AliasPrinted(ref: TableRef)
    requires LexicalTable(ref)
    ensures Quotes(AliasText(ref)) == 0
  {
    PlainText(" AS ");
    IdentWithoutQuotes(ref.alias);
    QuotesConcat(" AS ", ref.alias);
  }

  lemma JoinPrinted(join: JoinClause, tail: string)
    requires LexicalTable(join.rightTable) && Lexical(join.condition, true)
    ensures Quotes(JoinText(join) + tail) == PrintedWith(join.condition) + Quotes(tail)
  {
    var text := ToSql(join.condition) + tail;
    JoinBodyText(join, tail);
    PlainText(" JOIN ");
    QuotesConcat(" JOIN ", JoinBody(join, tail));
    IdentWithoutQuotes(join.rightTable.tableName);
    QuotesConcat(join.rightTable.tableName, AliasText(join.rightTable) + (" ON " + text));
    AliasPrinted(join.rightTable);
    QuotesConcat(AliasText(join.rightTable), " ON " + text);
    PlainText(" ON ");
    QuotesConcat(" ON ", text);
    PrintedQuotes(join.condition, true);
    QuotesConcat(ToSql(join.condition), tail);
  }

  lemma {:induction false} JoinsPrintedQuotes(joins: seq<JoinClause>, k: nat)
    requires LexicalJoins(joins) && k <= |joins|
    ensures Quotes(JoinsText(joins, k)) == JoinsPrinted(joins, k)
    decreases |joins| - k
  {
    if k < |joins| {
      JoinsPrintedQuotes(joins, k + 1);
      JoinPrinted(joins[k], JoinsText(joins, k + 1));
    }
  }

  lemma WherePrinted(where: Option<Expr>)
    requires where.Some? ==> Lexical(where.value, true)
    ensures Quotes(WhereText(where)) == if where.Some? then PrintedWith(where.value) else 0
  {
    if where.Some? {
      PrintedQuotes(where.value, true);
      PlainText(" WHERE ");
      QuotesConcat(" WHERE ", ToSql(where.value));
    }
  }

  lemma OrderedPrinted(c: OrderByColumn)
    requires IsName(c.columnName)
    ensures Quotes(OrderedText(c)) == 0
  {
    NameWithoutQuotes(c.columnName);
    PlainText(" DESC");
    PlainText("");
    QuotesConcat(c.columnName, if c.direction == Descending then " DESC" else "");
  }

  lemma {:induction false} OrdersPrinted(orderBy: seq<OrderByColumn>, k: nat)
    requires LexicalOrder(orderBy) && k <= |orderBy|
    ensures Quotes(OrdersText(orderBy, k)) == 0
    decreases |orderBy| - k
  {
    if k < |orderBy| {
      OrdersPrinted(orderBy, k + 1);
      var comma := if k > 0 then ", " else "";
      PlainText(comma);
      OrderedPrinted(orderBy[k]);
      Quotes3(comma, OrderedText(orderBy[k]), OrdersText(orderBy, k + 1));
    }
  }

  lemma OrderPrinted(orderBy: seq<OrderByColumn>)
    requires LexicalOrder(orderBy)
    ensures Quotes(OrderText(orderBy)) == 0
  {
    OrdersPrinted(orderBy, 0);
    PlainText(" ORDER BY ");
    QuotesConcat(" ORDER BY ", OrdersText(orderBy, 0));
  }

  lemma LimitPrinted(limit: int)
    ensures Quotes(LimitText(limit)) == 0
  {
    if limit >= 0 {
      IntWithoutQuotes(limit);
      PlainText(" LIMIT ");
      QuotesConcat(" LIMIT ", IntText(limit));
    }
  }

  lemma TailPrinted(stmt: SelectStatement)
    requires LexicalStatement(stmt)
    ensures Quotes(JoinTailText(stmt)) ==
      JoinsPrinted(stmt.joins, 0) + if stmt.whereClause.Some? then PrintedWith(stmt.whereClause.value) else 0
  {
    JoinsPrintedQuotes(stmt.joins, 0);
    WherePrinted(stmt.whereClause);
    OrderPrinted(stmt.orderBy);
    LimitPrinted(stmt.limitCount);
    QuotesConcat(OrderText(stmt.orderBy), LimitText(stmt.limitCount));
    QuotesConcat(WhereText(stmt.whereClause), OrderTailText(stmt));
    QuotesConcat(JoinsText(stmt.joins, 0), WhereTailText(stmt));
  }

  lemma FromPrinted(stmt: SelectStatement)
    requires LexicalStatement(stmt)
    ensures Quotes(" FROM " + FromText(stmt)) == Quotes(JoinTailText(stmt))
  {
    var table := TableRef(stmt.tableName, stmt.tableAlias);
    AliasPrinted(table);
    QuotesConcat(AliasText(table), JoinTailText(stmt));
    IdentWithoutQuotes(stmt.tableName);
    QuotesConcat(stmt.tableName, AliasText(table) + JoinTailText(stmt));
    PlainText(" FROM ");
    QuotesConcat(" FROM ", FromText(stmt));
  }

  lemma StatementPrinted(stmt: SelectStatement)
    requires LexicalStatement(stmt)
    ensures Quotes(StatementText(stmt)) ==
      JoinsPrinted(stmt.joins, 0) + if stmt.whereClause.Some? then PrintedWith(stmt.whereClause.value) else 0
  {
    var from := " FROM " + FromText(stmt);
    TailPrinted(stmt);
    FromPrinted(stmt);
    ProjectionsPrinted(stmt.projections);
    QuotesConcat(ProjectionText(stmt.projections), from);
    PlainText("SELECT ");
    QuotesConcat("SELECT ", ProjectionText(stmt.projections) + from);
  }

  lemma {:induction false} JoinsDifference(joins: seq<JoinClause>, k: nat)
    requires k <= |joins|
    ensures JoinsQuotes(joins, k) == JoinsPrinted(joins, k) + JoinsEmbedded(joins, k)
    decreases |joins| - k
  {
    if k < |joins| {
      JoinsDifference(joins, k + 1);
    }
  }

  lemma {:induction false} JoinUnquoted(joins: seq<JoinClause>, k: nat, j: nat)
    requires k <= j < |joins| && JoinsEmbedded(joins, k) == 0
    ensures EmbeddedQuotes(joins[j].condition) == 0
    decreases j - k
  {
    if k < j {
      JoinUnquoted(joins, k + 1, j);
    }
  }

  lemma EachUnquoted(stmt: SelectStatement)
    requires StatementEmbedded(stmt) == 0
    ensures Unquoted(stmt.joins)
  {
    forall j | 0 <= j < |stmt.joins|
      ensures EmbeddedQuotes(stmt.joins[j].condition) == 0
    {
      JoinUnquoted(stmt.joins, 0, j);
    }
  }

  /** The statement round trip, exactly: a statement is read back from its printed
      text - alias, joins, WHERE, ORDER BY with directions and LIMIT included - if and
      only if it is lexical, none of its string literals embeds a quote, and no
      comparison in it has a comparison or a negation as an operand. */
  lemma StatementRoundTrips(stmt: SelectStatement)
    ensures Statement(StatementText(stmt)) == Ok(stmt) <==>
      LexicalStatement(stmt) && StatementEmbedded(stmt) == 0 && ShapedStatement(stmt)
  {
    if LexicalStatement(stmt) && StatementEmbedded(stmt) == 0 && ShapedStatement(stmt) {
      EachUnquoted(stmt);
      SelectRead(stmt);
    }
    if Statement(StatementText(stmt)) == Ok(stmt) {
      StatementOutput(StatementText(stmt));
      StatementPrinted(stmt);
      JoinsDifference(stmt.joins, 0);
      StatementMisses(stmt);
    }
  }

  /** So for every text the parser accepts, printing and parsing again is the
      identity exactly when the text embedded no quote and put no comparison or
      negation, in parentheses, next to a comparison operator. */
  lemma ReparseParsed(sql: string)
    requires Statement(sql).Ok?
    ensures
      var stmt := Statement(sql).value;
      Statement(StatementText(stmt)) == Ok(stmt) <==> StatementEmbedded(stmt) == 0 && ShapedStatement(stmt)
  {
    StatementOutput(sql);
    StatementRoundTrips(Statement(sql).value);
  }

  /** Which word after a table name becomes its alias: any but the reserved ones,
      compared as written. */
  lemma ImplicitAlias(table: string, word: string, rest: string)
    requires IsIdent(table) && IsIdent(word) && Upper(word) != "AS" && EndsWord(rest)
    ensures Table(table + (" " + (word + rest))) ==
      if Reserved(word) then Ok(Parsed(TableRef(table, table), word + rest))
      else Ok(Parsed(TableRef(table, word), rest))
  {
    var text := " " + (word + rest);
    TableThen(table, text, table + text);
    SkipOneSpace(word + rest);
    WordRead(word, rest);
    assert (word + rest)[0] == word[0];
    IdentRead(word, rest);
  }

  /** Keywords are matched in any case, so a lower-case WHERE is not stopped by the
      guard: it becomes the alias and the clause is lost. */
  lemma LowerCaseWhere(table: string, rest: string)
    requires IsIdent(table) && EndsWord(rest)
    ensures TryKeyword("WHERE", " " + ("where" + rest)) == Parsed(true, rest)
    ensures Table(table + (" " + ("where" + rest))) == Ok(Parsed(TableRef(table, "where"), rest))
  {
    assert Upper("where") == "WHERE";
    ImplicitAlias(table, "where", rest);
    SkipOneSpace("where" + rest);
    WordRead("where", rest);
    assert ("where" + rest)[0] == 'w';
  }
}
