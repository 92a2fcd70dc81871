// Parsing a printed statement gives the statement back, clause by clause. Every
// clause reader is compared with the printer up to white space in front of what
// follows, because a failed keyword leaves the cursor past it.

module StatementRoundTrip {
  import opened Common
  import opened Ast
  import opened Lexer
  import opened Printer
  import opened Grammar
  import opened RoundTrip

  // ---- Which statements ----

  predicate LexicalTable(ref: TableRef) { IsIdent(ref.tableName) && IsIdent(ref.alias) }

  predicate LexicalJoins(joins: seq<JoinClause>) {
    forall k :: 0 <= k < |joins| ==> LexicalTable(joins[k].rightTable) && Lexical(joins[k].condition, true)
  }

  predicate LexicalNames(names: seq<string>) { forall k :: 0 <= k < |names| ==> IsName(names[k]) }

  predicate LexicalOrder(orderBy: seq<OrderByColumn>) {
    forall k :: 0 <= k < |orderBy| ==> IsName(orderBy[k].columnName)
  }

  predicate LexicalStatement(stmt: SelectStatement) {
    && LexicalNames(stmt.projections)
    && LexicalTable(TableRef(stmt.tableName, stmt.tableAlias))
    && LexicalJoins(stmt.joins)
    && (stmt.whereClause.Some? ==> Lexical(stmt.whereClause.value, true))
    && LexicalOrder(stmt.orderBy)
    && -1 <= stmt.limitCount <= INT64_MAX
  }

  predicate ShapedJoins(joins: seq<JoinClause>) {
    forall k :: 0 <= k < |joins| ==> Shaped(joins[k].condition)
  }

  predicate ShapedStatement(stmt: SelectStatement) {
    ShapedJoins(stmt.joins) && (stmt.whereClause.Some? ==> Shaped(stmt.whereClause.value))
  }

  function JoinsEmbedded(joins: seq<JoinClause>, k: nat): nat
    requires k <= |joins|
    decreases |joins| - k
  {
    if k == |joins| then 0 else EmbeddedQuotes(joins[k].condition) + JoinsEmbedded(joins, k + 1)
  }

  function StatementEmbedded(stmt: SelectStatement): nat {
    JoinsEmbedded(stmt.joins, 0) + if stmt.whereClause.Some? then EmbeddedQuotes(stmt.whereClause.value) else 0
  }

  // ---- Keywords between clauses ----

  /** The text starts with a blank, the keyword and another blank. */
  predicate Begins(s: string, kw: string) {
    |s| > |kw| + 1 && s[0] == ' ' && s[1..|kw| + 1] == kw && s[|kw| + 1] == ' '
  }

  predicate ClauseWord(kw: string) {
    kw == "JOIN" || kw == "WHERE" || kw == "ORDER" || kw == "LIMIT" || kw == "ON" || kw == "FROM"
  }

  lemma ClauseWordUpper(kw: string)
    requires ClauseWord(kw)
    ensures IsIdent(kw) && Upper(kw) == kw
  {
  }

  lemma BeginsRead(s: string, kw: string, wanted: string)
    requires ClauseWord(kw) && Begins(s, kw)
    ensures TryKeyword(wanted, s) == if wanted == kw then Parsed(true, s[|kw| + 1..]) else Parsed(false, s[1..])
    ensures SkipSpaces(s) == s[1..] && s[1..] != "" && IsAlpha(s[1..][0])
    ensures ReadIdent(s) == Ok(Parsed(kw, s[|kw| + 1..]))
  {
    ClauseWordUpper(kw);
    var rest := s[|kw| + 1..];
    assert s == " " + (kw + rest);
    assert s[1..] == kw + rest;
    KeywordRead(kw, wanted, rest);
    IdentRead(kw, rest);
    assert (kw + rest)[0] == kw[0];
  }

  /** What may follow a clause: nothing, or the next clause. */
  ghost predicate Tail(s: string) {
    s == "" || exists kw :: ClauseWord(kw) && Begins(s, kw)
  }

  lemma TailEnds(s: string)
    requires Tail(s)
    ensures EndsExpr(s) && (SkipSpaces(s) == "" || SkipSpaces(s)[0] != ',')
  {
    if s != "" {
      var kw :| ClauseWord(kw) && Begins(s, kw);
      BeginsRead(s, kw, "AND");
      BeginsRead(s, kw, "OR");
    }
  }

  lemma TailWord(s: string, wanted: string)
    requires Tail(s) && wanted != ""
    ensures TryKeyword(wanted, s).value <==> ClauseWord(wanted) && Begins(s, wanted)
    ensures !TryKeyword(wanted, s).value ==> TryKeyword(wanted, s).rest == SkipSpaces(s)
  {
    if s != "" {
      var kw :| ClauseWord(kw) && Begins(s, kw);
      BeginsRead(s, kw, wanted);
      if ClauseWord(wanted) && Begins(s, wanted) {
        BeginsRead(s, wanted, wanted);
      }
    }
  }

  lemma OneWord(s: string, kw: string, other: string)
    requires ClauseWord(kw) && ClauseWord(other) && Begins(s, kw) && Begins(s, other)
    ensures kw == other
  {
    BeginsRead(s, kw, kw);
    BeginsRead(s, other, kw);
  }

  lemma KeywordSkips(kw: string, s: string, t: string)
    requires SkipSpaces(s) == SkipSpaces(t)
    ensures TryKeyword(kw, s) == TryKeyword(kw, t)
  {
  }

  /** A keyword after a blank, followed by a blank. */
  lemma KeywordThen(kw: string, rest: string, s: string)
    requires IsIdent(kw) && Upper(kw) == kw && SkipSpaces(s) == SkipSpaces(" " + kw + " " + rest)
    ensures TryKeyword(kw, s) == Parsed(true, " " + rest)
    ensures SkipSpaces(" " + rest) == SkipSpaces(rest)
  {
    Regrouping(kw, rest);
    KeywordRead(kw, kw, " " + rest);
    KeywordSkips(kw, s, " " + (kw + (" " + rest)));
    SkipOneSpace(rest);
  }

  // ---- Lists of names ----

  lemma NameThen(name: string, rest: string, s: string)
    requires IsName(name) && EndsLeaf(rest) && SkipSpaces(s) == name + rest
    ensures ReadName(s).Ok? && ReadName(s).value.value == name
    ensures SkipSpaces(ReadName(s).value.rest) == SkipSpaces(rest)
  {
    assert (name + rest)[0] == name[0];
    assert ReadIdent(s) == ReadIdent(name + rest);
    NameRead(name, rest);
  }

  predicate ListEnds(tail: string) {
    EndsLeaf(tail) && (SkipSpaces(tail) == "" || SkipSpaces(tail)[0] != ',')
  }

  lemma CommaText(s: string, part: string, rest: string)
    requires SkipSpaces(s) == SkipSpaces(", " + (part + rest)) && part != "" && !IsSpace(part[0])
    ensures
      var t := SkipSpaces(s);
      t != "" && t[0] == ',' && SkipSpaces(t[1..]) == part + rest
  {
    assert (", " + (part + rest))[1..] == " " + (part + rest);
    SkipOneSpace(part + rest);
    assert (part + rest)[0] == part[0];
  }

  lemma ThreeParts(a: string, b: string, c: string, tail: string)
    ensures a + b + c + tail == a + (b + (c + tail))
  {
  }

  lemma MoreNamesSkips(read: seq<string>, s: string, t: string)
    requires SkipSpaces(s) == SkipSpaces(t)
    ensures MoreNames(read, s) == MoreNames(read, t)
  {
  }

  lemma MoreNamesStep(read: seq<string>, name: string, rest: string, s: string)
    requires IsName(name) && EndsLeaf(rest) && SkipSpaces(s) == SkipSpaces(", " + (name + rest))
    ensures MoreNames(read, s) == MoreNames(read + [name], rest)
  {
    CommaText(s, name, rest);
    var t := SkipSpaces(s);
    NameThen(name, rest, t[1..]);
    MoreNamesSkips(read + [name], ReadName(t[1..]).value.rest, rest);
  }

  lemma NamesDone(names: seq<string>, tail: string, s: string)
    requires ListEnds(tail) && SkipSpaces(s) == SkipSpaces("" + tail)
    ensures MoreNames(names, s) == Ok(Parsed(names, SkipSpaces(tail)))
  {
    assert "" + tail == tail;
  }

  lemma NextName(names: seq<string>, k: nat, tail: string)
    requires 0 < k < |names|
    ensures NamesText(names, k) + tail == ", " + (names[k] + (NamesText(names, k + 1) + tail))
  {
    ThreeParts(", ", names[k], NamesText(names, k + 1), tail);
  }

  lemma Extended<T>(whole: seq<T>, k: nat, part: seq<T>)
    requires k < |whole| && part == whole[..k]
    ensures part + [whole[k]] == whole[..k + 1]
  {
  }

  /** With the first k names read, the remaining text yields the whole list. */
  lemma {:induction false} NamesRead(names: seq<string>, k: nat, read: seq<string>, tail: string, s: string)
    requires 0 < k <= |names| && LexicalNames(names) && ListEnds(tail) && read == names[..k]
    requires SkipSpaces(s) == SkipSpaces(NamesText(names, k) + tail)
    ensures MoreNames(read, s) == Ok(Parsed(names, SkipSpaces(tail)))
    decreases |names| - k
  {
    if k == |names| {
      assert read == names;
      NamesDone(read, tail, s);
    } else {
      var rest := NamesText(names, k + 1) + tail;
      NextName(names, k, tail);
      NamesEnd(names, k + 1, tail);
      MoreNamesStep(read, names[k], rest, s);
      Extended(names, k, read);
      NamesRead(names, k + 1, read + [names[k]], tail, rest);
    }
  }

  lemma NamesEnd(names: seq<string>, k: nat, tail: string)
    requires 0 < k <= |names| && ListEnds(tail)
    ensures EndsLeaf(NamesText(names, k) + tail)
  {
    if k == |names| {
      assert NamesText(names, k) + tail == tail;
    } else {
      assert (NamesText(names, k) + tail)[0] == ',';
    }
  }

  lemma FirstOfList(first: string, more: string, tail: string)
    ensures "" + first + more + tail == first + (more + tail)
  {
  }

  lemma NamedProjections(names: seq<string>, rest: string, s: string)
    requires names != [] && IsName(names[0]) && EndsLeaf(rest) && SkipSpaces(s) == names[0] + rest
    ensures Projections(s) == MoreNames([names[0]], rest)
  {
    var t := SkipSpaces(s);
    assert t[0] == names[0][0];
    NameThen(names[0], rest, t);
    MoreNamesSkips([names[0]], ReadName(t).value.rest, rest);
  }

  lemma ProjectionsRead(projections: seq<string>, tail: string, s: string)
    requires LexicalNames(projections) && ListEnds(tail)
    requires SkipSpaces(s) == SkipSpaces(ProjectionText(projections) + tail)
    ensures
      var r := Projections(s);
      r.Ok? && r.value.value == projections && SkipSpaces(r.value.rest) == SkipSpaces(tail)
  {
    if projections == [] {
      assert SkipSpaces(s) == "*" + tail;
      assert ("*" + tail)[1..] == tail;
    } else {
      var name, rest := projections[0], NamesText(projections, 1) + tail;
      FirstOfList(name, NamesText(projections, 1), tail);
      assert (name + rest)[0] == name[0];
      NamesEnd(projections, 1, tail);
      NamedProjections(projections, rest, s);
      NamesRead(projections, 1, [name], tail, rest);
    }
  }

  // ---- Tables ----

  lemma NoAlias(table: string, tail: string, s: string)
    requires SkipSpaces(s) == SkipSpaces(tail) && Tail(tail) && !Begins(tail, "FROM")
    ensures Aliased(table, s) == Ok(Parsed(TableRef(table, table), SkipSpaces(tail)))
  {
    KeywordSkips("AS", s, tail);
    TailWord(tail, "AS");
    if tail != "" {
      var kw :| ClauseWord(kw) && Begins(tail, kw);
      BeginsRead(tail, kw, "AS");
      assert ReadIdent(SkipSpaces(tail)) == ReadIdent(tail);
    }
  }

  lemma AliasThen(alias: string, tail: string)
    requires IsIdent(alias) && EndsWord(tail)
    ensures ReadIdent(" " + (alias + tail)) == Ok(Parsed(alias, tail))
  {
    SkipOneSpace(alias + tail);
    assert (alias + tail)[0] == alias[0];
    IdentRead(alias, tail);
  }

  lemma WithAlias(table: string, alias: string, tail: string, s: string)
    requires IsIdent(alias) && EndsWord(tail)
    requires SkipSpaces(s) == SkipSpaces(" AS " + (alias + tail))
    ensures Aliased(table, s) == Ok(Parsed(TableRef(table, alias), tail))
  {
    assert " AS " == " " + "AS" + " ";
    KeywordThen("AS", alias + tail, s);
    AliasThen(alias, tail);
  }

  lemma TableThen(table: string, rest: string, s: string)
    requires IsIdent(table) && EndsWord(rest) && SkipSpaces(s) == SkipSpaces(table + rest)
    ensures Table(s) == Aliased(table, rest)
  {
    assert (table + rest)[0] == table[0];
    assert ReadIdent(s) == ReadIdent(table + rest);
    IdentRead(table, rest);
  }

  lemma TableReads(ref: TableRef, tail: string, s: string)
    requires LexicalTable(ref) && Tail(tail) && !Begins(tail, "FROM")
    requires SkipSpaces(s) == SkipSpaces(ref.tableName + (AliasText(ref) + tail))
    ensures
      var r := Table(s);
      r.Ok? && r.value.value == ref && SkipSpaces(r.value.rest) == SkipSpaces(tail)
  {
    var rest := AliasText(ref) + tail;
    TailEnds(tail);
    if ref.alias == ref.tableName {
      assert rest == tail;
      TableThen(ref.tableName, tail, s);
      NoAlias(ref.tableName, tail, tail);
    } else {
      Assoc(" AS ", ref.alias, tail);
      TableThen(ref.tableName, rest, s);
      WithAlias(ref.tableName, ref.alias, tail, rest);
    }
  }

  // ---- WHERE, ORDER BY, LIMIT ----

  lemma OrSkips(s: string, t: string)
    requires SkipSpaces(s) == SkipSpaces(t)
    ensures ExprOr(s) == ExprOr(t)
  {
    AndSkips(s, t);
  }

  lemma WhereKeyword(text: string, s: string)
    requires SkipSpaces(s) == SkipSpaces(" WHERE " + text)
    ensures TryKeyword("WHERE", s) == Parsed(true, " " + text)
    ensures ExprOr(" " + text) == ExprOr(text)
  {
    assert " WHERE " == " " + "WHERE" + " ";
    KeywordThen("WHERE", text, s);
    OrSkips(" " + text, text);
  }

  lemma WhereReads(where: Option<Expr>, tail: string, s: string)
    requires where.Some? ==> Readable(where.value, true)
    requires Tail(tail) && !Begins(tail, "WHERE") && SkipSpaces(s) == SkipSpaces(WhereText(where) + tail)
    ensures Where(s) == Ok(Parsed(where, SkipSpaces(tail)))
  {
    if where.None? {
      assert WhereText(where) + tail == tail;
      KeywordSkips("WHERE", s, tail);
      TailWord(tail, "WHERE");
    } else {
      Assoc(" WHERE ", ToSql(where.value), tail);
      WhereKeyword(ToSql(where.value) + tail, s);
      TailEnds(tail);
      OrReads(where.value, tail);
    }
  }

  lemma IntSkips(s: string, t: string)
    requires SkipSpaces(s) == SkipSpaces(t)
    ensures ReadInt(s) == ReadInt(t)
  {
  }

  lemma LimitKeyword(text: string, s: string)
    requires SkipSpaces(s) == SkipSpaces(" LIMIT " + text)
    ensures TryKeyword("LIMIT", s) == Parsed(true, " " + text)
    ensures ReadInt(" " + text) == ReadInt(text)
  {
    assert " LIMIT " == " " + "LIMIT" + " ";
    KeywordThen("LIMIT", text, s);
    IntSkips(" " + text, text);
  }

  lemma LimitReads(limit: int, s: string)
    requires -1 <= limit <= INT64_MAX && SkipSpaces(s) == SkipSpaces(LimitText(limit))
    ensures LimitCount(s) == Ok(Parsed(limit, ""))
  {
    if limit >= 0 {
      LimitKeyword(IntText(limit), s);
      IntRead(limit, "");
      assert IntText(limit) + "" == IntText(limit);
    }
  }

  /** What may follow one ORDER BY item: a comma or the next clause. */
  predicate OrderEnds(rest: string) {
    && EndsLeaf(rest) && !TryKeyword("DESC", rest).value && !TryKeyword("ASC", rest).value
  }

  lemma OrderedReads(c: OrderByColumn, rest: string, s: string)
    requires IsName(c.columnName) && OrderEnds(rest) && SkipSpaces(s) == OrderedText(c) + rest
    ensures
      var r := OneOrder(s);
      r.Ok? && r.value.value == c && SkipSpaces(r.value.rest) == SkipSpaces(rest)
  {
    var name := c.columnName;
    if c.direction == Descending {
      var desc := " " + ("DESC" + rest);
      assert OrderedText(c) + rest == name + desc;
      KeywordRead("DESC", "DESC", rest);
      SkipOneSpace("DESC" + rest);
      assert ("DESC" + rest)[0] == 'D';
      NameThen(name, desc, s);
      KeywordSkips("DESC", ReadName(s).value.rest, desc);
    } else {
      assert OrderedText(c) + rest == name + rest;
      NameThen(name, rest, s);
      KeywordSkips("DESC", ReadName(s).value.rest, rest);
      KeywordSkips("ASC", SkipSpaces(rest), rest);
    }
  }

  lemma OrdersEnd(orderBy: seq<OrderByColumn>, k: nat, tail: string)
    requires 0 < k <= |orderBy| && Tail(tail)
    ensures OrderEnds(OrdersText(orderBy, k) + tail)
  {
    if k == |orderBy| {
      assert OrdersText(orderBy, k) + tail == tail;
      TailEnds(tail);
      TailWord(tail, "DESC");
      TailWord(tail, "ASC");
    } else {
      assert (OrdersText(orderBy, k) + tail)[0] == ',';
    }
  }

  lemma MoreOrdersSkips(read: seq<OrderByColumn>, s: string, t: string)
    requires SkipSpaces(s) == SkipSpaces(t)
    ensures MoreOrders(read, s) == MoreOrders(read, t)
  {
  }

  lemma MoreOrdersStep(read: seq<OrderByColumn>, c: OrderByColumn, rest: string, s: string)
    requires IsName(c.columnName) && OrderEnds(rest) && SkipSpaces(s) == SkipSpaces(", " + (OrderedText(c) + rest))
    ensures MoreOrders(read, s) == MoreOrders(read + [c], rest)
  {
    assert OrderedText(c)[0] == c.columnName[0];
    CommaText(s, OrderedText(c), rest);
    var t := SkipSpaces(s);
    OrderedReads(c, rest, t[1..]);
    MoreOrdersSkips(read + [c], OneOrder(t[1..]).value.rest, rest);
  }

  lemma OrdersDone(orderBy: seq<OrderByColumn>, tail: string, s: string)
    requires Tail(tail) && SkipSpaces(s) == SkipSpaces("" + tail)
    ensures MoreOrders(orderBy, s) == Ok(Parsed(orderBy, SkipSpaces(tail)))
  {
    TailEnds(tail);
    assert "" + tail == tail;
  }

  lemma NextOrder(orderBy: seq<OrderByColumn>, k: nat, tail: string)
    requires 0 < k < |orderBy|
    ensures OrdersText(orderBy, k) + tail == ", " + (OrderedText(orderBy[k]) + (OrdersText(orderBy, k + 1) + tail))
  {
    ThreeParts(", ", OrderedText(orderBy[k]), OrdersText(orderBy, k + 1), tail);
  }

  lemma {:induction false} OrdersRead(orderBy: seq<OrderByColumn>, k: nat, read: seq<OrderByColumn>, tail: string,
                                      s: string)
    requires 0 < k <= |orderBy| && LexicalOrder(orderBy) && Tail(tail) && read == orderBy[..k]
    requires SkipSpaces(s) == SkipSpaces(OrdersText(orderBy, k) + tail)
    ensures MoreOrders(read, s) == Ok(Parsed(orderBy, SkipSpaces(tail)))
    decreases |orderBy| - k
  {
    if k == |orderBy| {
      assert read == orderBy;
      OrdersDone(read, tail, s);
    } else {
      var rest := OrdersText(orderBy, k + 1) + tail;
      NextOrder(orderBy, k, tail);
      OrdersEnd(orderBy, k + 1, tail);
      MoreOrdersStep(read, orderBy[k], rest, s);
      Extended(orderBy, k, read);
      OrdersRead(orderBy, k + 1, read + [orderBy[k]], tail, rest);
    }
  }

  lemma FirstOrder(c: OrderByColumn, rest: string, s: string)
    requires IsName(c.columnName) && OrderEnds(rest) && SkipSpaces(s) == SkipSpaces(OrderedText(c) + rest)
    ensures OrderList(s) == MoreOrders([c], rest)
  {
    assert (OrderedText(c) + rest)[0] == c.columnName[0];
    OrderedReads(c, rest, s);
    MoreOrdersSkips([c], OneOrder(s).value.rest, rest);
  }

  lemma OrderListReads(orderBy: seq<OrderByColumn>, tail: string, s: string)
    requires orderBy != [] && LexicalOrder(orderBy) && Tail(tail)
    requires SkipSpaces(s) == SkipSpaces(OrdersText(orderBy, 0) + tail)
    ensures OrderList(s) == Ok(Parsed(orderBy, SkipSpaces(tail)))
  {
    var part, rest := OrderedText(orderBy[0]), OrdersText(orderBy, 1) + tail;
    FirstOfList(part, OrdersText(orderBy, 1), tail);
    OrdersEnd(orderBy, 1, tail);
    FirstOrder(orderBy[0], rest, s);
    OrdersRead(orderBy, 1, [orderBy[0]], tail, rest);
  }

  lemma OrderByText(list: string)
    ensures " ORDER BY " + list == " " + "ORDER" + " " + ("BY" + (" " + list))
  {
  }

  lemma OrderKeywords(list: string, s: string)
    requires SkipSpaces(s) == SkipSpaces(" ORDER BY " + list)
    ensures OrderBy(s) == OrderList(" " + list)
  {
    OrderByText(list);
    KeywordThen("ORDER", "BY" + (" " + list), s);
    KeywordRead("BY", "BY", " " + list);
  }

  lemma OrderReads(orderBy: seq<OrderByColumn>, tail: string, s: string)
    requires LexicalOrder(orderBy) && Tail(tail) && !Begins(tail, "ORDER")
    requires SkipSpaces(s) == SkipSpaces(OrderText(orderBy) + tail)
    ensures OrderBy(s) == Ok(Parsed(orderBy, SkipSpaces(tail)))
  {
    if orderBy == [] {
      assert OrderText(orderBy) + tail == tail;
      KeywordSkips("ORDER", s, tail);
      TailWord(tail, "ORDER");
    } else {
      var list := OrdersText(orderBy, 0) + tail;
      Assoc(" ORDER BY ", OrdersText(orderBy, 0), tail);
      OrderKeywords(list, s);
      SkipOneSpace(list);
      OrderListReads(orderBy, tail, " " + list);
    }
  }

  // ---- JOIN ----

  lemma BeginsText(kw: string, rest: string, s: string)
    requires s == " " + kw + " " + rest
    ensures Begins(s, kw)
  {
  }

  lemma JoinKeyword(text: string, s: string)
    requires SkipSpaces(s) == SkipSpaces(" JOIN " + text)
    ensures TryKeyword("JOIN", TryKeyword("INNER", s).rest) == Parsed(true, " " + text)
    ensures SkipSpaces(" " + text) == SkipSpaces(text)
  {
    assert " JOIN " == " " + "JOIN" + " ";
    KeywordThen("JOIN", text, s);
    var whole := " JOIN " + text;
    BeginsText("JOIN", text, whole);
    BeginsRead(whole, "JOIN", "INNER");
    KeywordSkips("INNER", s, whole);
    KeywordSkips("JOIN", TryKeyword("INNER", s).rest, s);
  }

  lemma OnKeyword(text: string, s: string)
    requires SkipSpaces(s) == SkipSpaces(" ON " + text)
    ensures ExpectKeyword("ON", s) == Ok(" " + text)
    ensures ExprOr(" " + text) == ExprOr(text)
  {
    assert " ON " == " " + "ON" + " ";
    KeywordThen("ON", text, s);
    OrSkips(" " + text, text);
  }

  /** The text of a join after the word JOIN. */
  function JoinBody(join: JoinClause, tail: string): string {
    join.rightTable.tableName + (AliasText(join.rightTable) + (" ON " + (ToSql(join.condition) + tail)))
  }

  lemma JoinBodyText(join: JoinClause, tail: string)
    requires LexicalTable(join.rightTable)
    ensures JoinText(join) + tail == " JOIN " + JoinBody(join, tail)
  {
    var table, e := join.rightTable, ToSql(join.condition);
    var alias := if table.alias != table.tableName then " AS " + table.alias else "";
    assert alias == AliasText(table);
    FourParts(" JOIN ", table.tableName, alias, " ON ", e, tail);
  }

  lemma FourParts(a: string, b: string, c: string, d: string, e: string, tail: string)
    ensures a + b + c + d + e + tail == a + (b + (c + (d + (e + tail))))
  {
    Assoc(a + b + c + d, e, tail);
    Assoc(a + b + c, d, e + tail);
    Assoc(a + b, c, d + (e + tail));
    Assoc(a, b, c + (d + (e + tail)));
  }

  /** The join made of a table and what its condition was read as. */
  function JoinOn(table: TableRef, condition: Result<Parsed<Expr>>): Result<Parsed<JoinClause>> {
    if condition.Err? then Err(condition.error)
    else Ok(Parsed(JoinClause(table, condition.value.value), condition.value.rest))
  }

  lemma JoinSteps(join: JoinClause, tail: string, s: string)
    requires LexicalTable(join.rightTable) && SkipSpaces(s) == SkipSpaces(JoinBody(join, tail))
    ensures OneJoin(s) == JoinOn(join.rightTable, ExprOr(ToSql(join.condition) + tail))
  {
    var text := ToSql(join.condition) + tail;
    var on := " ON " + text;
    BeginsText("ON", text, on);
    NotFrom(on);
    TableReads(join.rightTable, on, s);
    OnKeyword(text, Table(s).value.rest);
  }

  lemma JoinReads(join: JoinClause, tail: string, s: string)
    requires LexicalTable(join.rightTable) && Readable(join.condition, true) && Tail(tail)
    requires SkipSpaces(s) == SkipSpaces(JoinBody(join, tail))
    ensures OneJoin(s) == Ok(Parsed(join, SkipSpaces(tail)))
  {
    JoinSteps(join, tail, s);
    TailEnds(tail);
    OrReads(join.condition, tail);
  }

  lemma NotFrom(s: string)
    requires Begins(s, "ON")
    ensures !Begins(s, "FROM") && Tail(s)
  {
    if Begins(s, "FROM") {
      OneWord(s, "ON", "FROM");
    }
  }

  lemma JoinsSkips(joins: seq<JoinClause>, s: string, t: string)
    requires SkipSpaces(s) == SkipSpaces(t)
    ensures Joins(joins, s) == Joins(joins, t)
  {
    KeywordSkips("INNER", s, t);
  }

  lemma JoinsStep(read: seq<JoinClause>, join: JoinClause, tail: string, s: string)
    requires LexicalTable(join.rightTable) && Readable(join.condition, true) && Tail(tail)
    requires SkipSpaces(s) == SkipSpaces(" JOIN " + JoinBody(join, tail))
    ensures Joins(read, s) == Joins(read + [join], tail)
  {
    var body := JoinBody(join, tail);
    JoinKeyword(body, s);
    JoinReads(join, tail, " " + body);
    JoinsSkips(read + [join], SkipSpaces(tail), tail);
  }

  lemma JoinsDone(read: seq<JoinClause>, tail: string, s: string)
    requires Tail(tail) && !Begins(tail, "JOIN") && SkipSpaces(s) == SkipSpaces(tail)
    ensures Joins(read, s) == Ok(Parsed(read, SkipSpaces(tail)))
  {
    KeywordSkips("INNER", s, tail);
    TailWord(tail, "INNER");
    KeywordSkips("JOIN", SkipSpaces(tail), tail);
    TailWord(tail, "JOIN");
  }

  lemma JoinsEnd(joins: seq<JoinClause>, k: nat, tail: string)
    requires k <= |joins| && Tail(tail) && LexicalJoins(joins)
    ensures Tail(JoinsText(joins, k) + tail)
    ensures !Begins(tail, "FROM") ==> !Begins(JoinsText(joins, k) + tail, "FROM")
  {
    var text := JoinsText(joins, k) + tail;
    if k == |joins| {
      assert text == tail;
    } else {
      var rest := JoinsText(joins, k + 1) + tail;
      Assoc(JoinText(joins[k]), JoinsText(joins, k + 1), tail);
      JoinBodyText(joins[k], rest);
      assert text == " " + "JOIN" + " " + JoinBody(joins[k], rest);
      BeginsText("JOIN", JoinBody(joins[k], rest), text);
      if Begins(text, "FROM") {
        OneWord(text, "JOIN", "FROM");
      }
    }
  }

  predicate ReadableJoins(joins: seq<JoinClause>) {
    forall k :: 0 <= k < |joins| ==> Readable(joins[k].condition, true)
  }

  lemma {:induction false} JoinsRead(joins: seq<JoinClause>, k: nat, read: seq<JoinClause>, tail: string, s: string)
    requires k <= |joins| && LexicalJoins(joins) && ReadableJoins(joins) && read == joins[..k]
    requires Tail(tail) && !Begins(tail, "JOIN")
    requires SkipSpaces(s) == SkipSpaces(JoinsText(joins, k) + tail)
    ensures Joins(read, s) == Ok(Parsed(joins, SkipSpaces(tail)))
    decreases |joins| - k
  {
    if k == |joins| {
      assert read == joins;
      assert JoinsText(joins, k) + tail == tail;
      JoinsDone(read, tail, s);
    } else {
      var rest := JoinsText(joins, k + 1) + tail;
      Assoc(JoinText(joins[k]), JoinsText(joins, k + 1), tail);
      JoinBodyText(joins[k], rest);
      JoinsEnd(joins, k + 1, tail);
      JoinsStep(read, joins[k], rest, s);
      Extended(joins, k, read);
      JoinsRead(joins, k + 1, read + [joins[k]], tail, rest);
    }
  }
}
