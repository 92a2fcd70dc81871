// The word ASC, which the printer never writes: it is consumed and changes nothing.

module AscWritten {
  import opened Common
  import opened Ast
  import opened Lexer
  import opened Printer
  import opened Grammar
  import opened RoundTrip
  import opened StatementRoundTrip
  import opened SqlRoundTrip

  /** ASC in any letter case, or nothing. */
  predicate AscMark(mark: string) { mark == "" || (mark[0] == ' ' && Upper(mark[1..]) == "ASC") }

  lemma AscWord(word: string)
    requires Upper(word) == "ASC"
    ensures IsIdent(word) && IsAlpha(word[0])
  {
    forall i | 0 <= i < |word|
      ensures IsAlpha(word[i])
    {
      assert Upper(word)[i] == UpperChar(word[i]);
    }
  }

  lemma AscKeyword(word: string, rest: string)
    requires Upper(word) == "ASC" && EndsWord(rest)
    ensures Direction(" " + (word + rest)) == Parsed(Ascending, rest)
    ensures EndsLeaf(" " + (word + rest))
  {
    AscWord(word);
    WordRead(word, rest);
    SkipOneSpace(word + rest);
    assert (word + rest)[0] == word[0];
  }

  lemma DirectionSkips(s: string, t: string)
    requires SkipSpaces(s) == SkipSpaces(t)
    ensures Direction(s) == Direction(t)
  {
    KeywordSkips("DESC", s, t);
  }

  /** Every ORDER BY item with ASC after it, in any letter case and in front of
      whatever cannot extend the word, is ascending, and ASC is consumed. */
  lemma AscRead(name: string, word: string, rest: string, s: string)
    requires IsName(name) && Upper(word) == "ASC" && EndsWord(rest)
    requires SkipSpaces(s) == name + (" " + (word + rest))
    ensures OneOrder(s) == Ok(Parsed(OrderByColumn(name, Ascending), rest))
  {
    var asc := " " + (word + rest);
    AscKeyword(word, rest);
    NameThen(name, asc, s);
    DirectionSkips(ReadName(s).value.rest, asc);
  }

  // ---- Lists ----

  function MarkedText(c: OrderByColumn, mark: string): string {
    c.columnName + if c.direction == Descending then " DESC" else mark
  }

  lemma MarkedReads(c: OrderByColumn, mark: string, rest: string, s: string)
    requires IsName(c.columnName) && OrderEnds(rest) && AscMark(mark) && SkipSpaces(s) == MarkedText(c, mark) + rest
    ensures
      var r := OneOrder(s);
      r.Ok? && r.value.value == c && SkipSpaces(r.value.rest) == SkipSpaces(rest)
  {
    if c.direction == Descending || mark == "" {
      assert MarkedText(c, mark) == OrderedText(c);
      OrderedReads(c, rest, s);
    } else {
      var word := mark[1..];
      assert mark == " " + word;
      assert MarkedText(c, mark) + rest == c.columnName + (" " + (word + rest));
      AscRead(c.columnName, word, rest, s);
    }
  }

  /** The ORDER BY list from the k-th item on, ASC written as the marks say. */
  function MarkedList(orderBy: seq<OrderByColumn>, marks: seq<string>, k: nat): string
    requires k <= |orderBy| == |marks|
    decreases |orderBy| - k
  {
    if k == |orderBy| then ""
    else (if k > 0 then ", " else "") + MarkedText(orderBy[k], marks[k]) + MarkedList(orderBy, marks, k + 1)
  }

  predicate AscMarks(orderBy: seq<OrderByColumn>, marks: seq<string>) {
    |marks| == |orderBy| && forall k :: 0 <= k < |marks| ==> AscMark(marks[k])
  }

  lemma MarkedEnd(orderBy: seq<OrderByColumn>, marks: seq<string>, k: nat, tail: string)
    requires 0 < k <= |orderBy| == |marks| && Tail(tail)
    ensures OrderEnds(MarkedList(orderBy, marks, k) + tail)
  {
    if k == |orderBy| {
      assert MarkedList(orderBy, marks, k) + tail == tail;
      OrdersEnd(orderBy, k, tail);
      assert OrdersText(orderBy, k) + tail == tail;
    } else {
      assert (MarkedList(orderBy, marks, k) + tail)[0] == ',';
    }
  }

  lemma MarkedStep(read: seq<OrderByColumn>, c: OrderByColumn, mark: string, rest: string, s: string)
    requires IsName(c.columnName) && OrderEnds(rest) && AscMark(mark)
    requires SkipSpaces(s) == SkipSpaces(", " + (MarkedText(c, mark) + rest))
    ensures MoreOrders(read, s) == MoreOrders(read + [c], rest)
  {
    assert MarkedText(c, mark)[0] == c.columnName[0];
    CommaText(s, MarkedText(c, mark), rest);
    var t := SkipSpaces(s);
    MarkedReads(c, mark, rest, t[1..]);
    MoreOrdersSkips(read + [c], OneOrder(t[1..]).value.rest, rest);
  }

  lemma {:induction false} MarkedRead(orderBy: seq<OrderByColumn>, marks: seq<string>, k: nat,
                                      read: seq<OrderByColumn>, tail: string, s: string)
    requires 0 < k <= |orderBy| && LexicalOrder(orderBy) && AscMarks(orderBy, marks) && Tail(tail)
    requires read == orderBy[..k] && SkipSpaces(s) == SkipSpaces(MarkedList(orderBy, marks, k) + tail)
    ensures MoreOrders(read, s) == Ok(Parsed(orderBy, SkipSpaces(tail)))
    decreases |orderBy| - k
  {
    if k == |orderBy| {
      assert read == orderBy;
      OrdersDone(read, tail, s);
    } else {
      var rest := MarkedList(orderBy, marks, k + 1) + tail;
      ThreeParts(", ", MarkedText(orderBy[k], marks[k]), MarkedList(orderBy, marks, k + 1), tail);
      MarkedEnd(orderBy, marks, k + 1, tail);
      MarkedStep(read, orderBy[k], marks[k], rest, s);
      Extended(orderBy, k, read);
      MarkedRead(orderBy, marks, k + 1, read + [orderBy[k]], tail, rest);
    }
  }

  function MarkedOrder(orderBy: seq<OrderByColumn>, marks: seq<string>): string
    requires |orderBy| == |marks|
  {
    if orderBy == [] then "" else " ORDER BY " + MarkedList(orderBy, marks, 0)
  }

  lemma FirstMarked(c: OrderByColumn, mark: string, rest: string, s: string)
    requires IsName(c.columnName) && OrderEnds(rest) && AscMark(mark)
    requires SkipSpaces(s) == SkipSpaces(MarkedText(c, mark) + rest)
    ensures OrderList(s) == MoreOrders([c], rest)
  {
    assert (MarkedText(c, mark) + rest)[0] == c.columnName[0];
    MarkedReads(c, mark, rest, s);
    MoreOrdersSkips([c], OneOrder(s).value.rest, rest);
  }

  lemma MarkedOrderReads(orderBy: seq<OrderByColumn>, marks: seq<string>, tail: string)
    requires LexicalOrder(orderBy) && AscMarks(orderBy, marks) && Tail(tail) && !Begins(tail, "ORDER")
    ensures
      var text := SkipSpaces(MarkedOrder(orderBy, marks) + tail);
      OrderBy(text) == Ok(Parsed(orderBy, SkipSpaces(tail)))
  {
    if orderBy == [] {
      assert MarkedOrder(orderBy, marks) + tail == tail == OrderText(orderBy) + tail;
      OrderReads(orderBy, tail, SkipSpaces(tail));
    } else {
      var list, rest := MarkedList(orderBy, marks, 0), MarkedList(orderBy, marks, 1) + tail;
      Assoc(" ORDER BY ", list, tail);
      OrderKeywords(list + tail, SkipSpaces(MarkedOrder(orderBy, marks) + tail));
      SkipOneSpace(list + tail);
      FirstOfList(MarkedText(orderBy[0], marks[0]), MarkedList(orderBy, marks, 1), tail);
      MarkedEnd(orderBy, marks, 1, tail);
      FirstMarked(orderBy[0], marks[0], rest, " " + (list + tail));
      MarkedRead(orderBy, marks, 1, [orderBy[0]], tail, rest);
    }
  }

  // ---- Statements ----

  /** A printed statement with another text in place of its ORDER BY and LIMIT. */
  function TextWith(stmt: SelectStatement, end: string): string {
    "SELECT " + (ProjectionText(stmt.projections) +
      (" FROM " + (stmt.tableName + (AliasText(TableRef(stmt.tableName, stmt.tableAlias)) +
        (JoinsText(stmt.joins, 0) + (WhereText(stmt.whereClause) + end))))))
  }

  /** What may follow WHERE. */
  ghost predicate LastTail(s: string) {
    Tail(s) && !Begins(s, "WHERE") && !Begins(s, "JOIN") && !Begins(s, "FROM")
  }

  lemma WhereLast(where: Option<Expr>, end: string)
    requires LastTail(end)
    ensures Tail(WhereText(where) + end)
    ensures !Begins(WhereText(where) + end, "JOIN") && !Begins(WhereText(where) + end, "FROM")
  {
    var text := WhereText(where) + end;
    if where.None? {
      assert text == end;
    } else {
      Assoc(" WHERE ", ToSql(where.value), end);
      assert " WHERE " == " " + "WHERE" + " ";
      BeginsText("WHERE", ToSql(where.value) + end, text);
      if Begins(text, "JOIN") {
        OneWord(text, "WHERE", "JOIN");
      }
      if Begins(text, "FROM") {
        OneWord(text, "WHERE", "FROM");
      }
    }
  }

  /** Whatever the end, the statement is read up to it. */
  lemma HeadReads(stmt: SelectStatement, end: string) returns (s: string)
    requires ReadableStatement(stmt) && LastTail(end)
    ensures Select(TextWith(stmt, end)) == Clauses(stmt.projections, TableRef(stmt.tableName, stmt.tableAlias), s)
    ensures Joins([], s).Ok? && Joins([], s).value.value == stmt.joins
    ensures Where(Joins([], s).value.rest) == Ok(Parsed(stmt.whereClause, SkipSpaces(end)))
  {
    var filtered := WhereText(stmt.whereClause) + end;
    var joined := JoinsText(stmt.joins, 0) + filtered;
    WhereLast(stmt.whereClause, end);
    JoinsEnd(stmt.joins, 0, filtered);
    s := UpToJoins(stmt, joined, TextWith(stmt, end));
    JoinsRead(stmt.joins, 0, [], filtered, s);
    WhereReads(stmt.whereClause, end, SkipSpaces(filtered));
  }

  lemma UpToJoins(stmt: SelectStatement, joined: string, text: string) returns (s: string)
    requires LexicalStatement(stmt) && Tail(joined) && !Begins(joined, "FROM")
    requires text == "SELECT " + (ProjectionText(stmt.projections) +
      (" FROM " + (stmt.tableName + (AliasText(TableRef(stmt.tableName, stmt.tableAlias)) + joined))))
    ensures Select(text) == Clauses(stmt.projections, TableRef(stmt.tableName, stmt.tableAlias), s)
    ensures SkipSpaces(s) == SkipSpaces(joined)
  {
    var table := TableRef(stmt.tableName, stmt.tableAlias);
    var afterFrom := stmt.tableName + (AliasText(table) + joined);
    var from := " FROM " + afterFrom;
    var body := ProjectionText(stmt.projections) + from;
    SelectKeyword(body);
    FromKeyword(afterFrom, from);
    ProjectionsRead(stmt.projections, from, " " + body);
    FromKeyword(afterFrom, Projections(" " + body).value.rest);
    TableReads(table, joined, " " + afterFrom);
    s := Table(" " + afterFrom).value.rest;
  }

  lemma MarkedLast(stmt: SelectStatement, marks: seq<string>)
    requires |marks| == |stmt.orderBy|
    ensures LastTail(MarkedOrder(stmt.orderBy, marks) + LimitText(stmt.limitCount))
  {
    var limit := LimitText(stmt.limitCount);
    var text := MarkedOrder(stmt.orderBy, marks) + limit;
    LimitTail(stmt.limitCount);
    if stmt.orderBy == [] {
      assert text == limit;
    } else {
      var list := MarkedList(stmt.orderBy, marks, 0) + limit;
      Assoc(" ORDER BY ", MarkedList(stmt.orderBy, marks, 0), limit);
      OrderByText(list);
      BeginsText("ORDER", "BY" + (" " + list), text);
      forall kw | ClauseWord(kw) && Begins(text, kw)
        ensures kw == "ORDER"
      {
        OneWord(text, "ORDER", kw);
      }
    }
  }

  /** The printed text with ASC written after some of its ascending columns. */
  function MarkedStatement(stmt: SelectStatement, marks: seq<string>): string
    requires |marks| == |stmt.orderBy|
  {
    TextWith(stmt, MarkedOrder(stmt.orderBy, marks) + LimitText(stmt.limitCount))
  }

  lemma PartsRead(text: string, stmt: SelectStatement, s: string, where: string, order: string, limit: string)
    requires Select(text) == Clauses(stmt.projections, TableRef(stmt.tableName, stmt.tableAlias), s)
    requires Joins([], s) == Ok(Parsed(stmt.joins, where)) && Where(where) == Ok(Parsed(stmt.whereClause, order))
    requires OrderBy(order) == Ok(Parsed(stmt.orderBy, limit)) && LimitCount(limit) == Ok(Parsed(stmt.limitCount, ""))
    ensures Statement(text) == Ok(stmt)
  {
  }

  /** ASC after any of the ascending columns, in any letter case, leaves the statement
      read from a printed text as it is. */
  lemma AscChangesNothing(stmt: SelectStatement, marks: seq<string>)
    requires Statement(StatementText(stmt)) == Ok(stmt) && AscMarks(stmt.orderBy, marks)
    ensures Statement(MarkedStatement(stmt, marks)) == Ok(stmt)
  {
    StatementRoundTrips(stmt);
    EachUnquoted(stmt);
    MarkedReadable(stmt, marks);
  }

  lemma MarkedReadable(stmt: SelectStatement, marks: seq<string>)
    requires ReadableStatement(stmt) && AscMarks(stmt.orderBy, marks)
    ensures Statement(MarkedStatement(stmt, marks)) == Ok(stmt)
  {
    var limit := LimitText(stmt.limitCount);
    var end := MarkedOrder(stmt.orderBy, marks) + limit;
    MarkedLast(stmt, marks);
    var s := HeadReads(stmt, end);
    LimitTail(stmt.limitCount);
    MarkedOrderReads(stmt.orderBy, marks, limit);
    LimitReads(stmt.limitCount, SkipSpaces(limit));
    PartsRead(TextWith(stmt, end), stmt, s, Joins([], s).value.rest, SkipSpaces(end), SkipSpaces(limit));
  }

  lemma ExampleText(stmt: SelectStatement)
    requires stmt == SelectStatement(["k"], "t", "t", [], None, [OrderByColumn("k", Ascending)], -1)
    ensures MarkedStatement(stmt, [" ASC"]) == "SELECT k FROM t ORDER BY k ASC"
  {
    assert MarkedOrder(stmt.orderBy, [" ASC"]) + LimitText(-1) == " ORDER BY k ASC";
    assert ProjectionText(stmt.projections) == "k";
    assert JoinsText([], 0) == "" && WhereText(None) == "" && AliasText(TableRef("t", "t")) == "";
  }

  /** An explicit ASC read end to end. */
  lemma AscExample()
    ensures Statement("SELECT k FROM t ORDER BY k ASC") ==
      Ok(SelectStatement(["k"], "t", "t", [], None, [OrderByColumn("k", Ascending)], -1))
  {
    var stmt := SelectStatement(["k"], "t", "t", [], None, [OrderByColumn("k", Ascending)], -1);
    assert ReadableStatement(stmt);
    var mark := " ASC";
    assert mark[1..] == "ASC" && Upper("ASC") == "ASC";
    MarkedReadable(stmt, [mark]);
    ExampleText(stmt);
  }
}
