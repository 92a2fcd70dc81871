// Texts the parser accepts although their statements do not survive printing: a
// parenthesised comparison in front of an operator, and a literal with a quote.

module AcceptedTexts {
  import opened Common
  import opened Ast
  import opened Lexer
  import opened Printer
  import opened Grammar
  import opened RoundTrip
  import opened StatementRoundTrip
  import opened SqlRoundTrip

  function SelectAll(table: string, where: Expr): SelectStatement {
    SelectStatement([], table, table, [], Some(where), [], -1)
  }

  function QueryText(table: string, condition: string): string {
    "SELECT " + ("*" + (" FROM " + (table + (" WHERE " + condition))))
  }

  lemma WhereFollows(condition: string)
    ensures Tail(" WHERE " + condition)
    ensures !Begins(" WHERE " + condition, "FROM") && !Begins(" WHERE " + condition, "JOIN")
  {
    var tail := " WHERE " + condition;
    assert " WHERE " == " " + "WHERE" + " ";
    BeginsText("WHERE", condition, tail);
    if Begins(tail, "FROM") {
      OneWord(tail, "WHERE", "FROM");
    }
    if Begins(tail, "JOIN") {
      OneWord(tail, "WHERE", "JOIN");
    }
  }

  lemma WhereClauses(table: string, condition: string, e: Expr, s: string)
    requires ExprOr(condition) == Ok(Parsed(e, "")) && SkipSpaces(s) == SkipSpaces(" WHERE " + condition)
    ensures Clauses([], TableRef(table, table), s) == Ok(Parsed(SelectAll(table, e), ""))
  {
    var tail := " WHERE " + condition;
    WhereFollows(condition);
    JoinsDone([], tail, s);
    WhereKeyword(condition, SkipSpaces(tail));
    LimitReads(-1, "");
  }

  /** A condition the expression parser reads to its end makes a statement. */
  lemma SelectWhere(table: string, condition: string, e: Expr)
    requires IsIdent(table) && ExprOr(condition) == Ok(Parsed(e, ""))
    ensures Statement(QueryText(table, condition)) == Ok(SelectAll(table, e))
  {
    var tail := " WHERE " + condition;
    var text := table + tail;
    var from := " FROM " + text;
    WhereFollows(condition);
    SelectKeyword("*" + from);
    FromKeyword(text, from);
    ProjectionsRead([], from, " " + ("*" + from));
    FromKeyword(text, Projections(" " + ("*" + from)).value.rest);
    assert AliasText(TableRef(table, table)) + tail == tail;
    TableReads(TableRef(table, table), tail, " " + text);
    WhereClauses(table, condition, e, Table(" " + text).value.rest);
  }

  // ---- A comparison or negation as an operand ----

  /** The condition with its left operand in parentheses. */
  function Parenthesised(op: CmpOp, l: Expr, r: Expr): string {
    "(" + (ToSql(l) + (")" + (OpText(op) + ToSql(r))))
  }

  lemma ParenthesisedComparison(op: CmpOp, l: Expr, r: Expr)
    requires Readable(l, true) && IsOperand(r) && Readable(r, false)
    ensures ReadsAs(ExprNot(Parenthesised(op, l, r)), Compare(op, l, r), "")
  {
    var right := ToSql(r);
    var tail := OpText(op) + right;
    var text := Parenthesised(op, l, r);
    ClosedRead(tail);
    OrReads(l, ")" + tail);
    ParenRead(ToSql(l) + (")" + tail), l, tail);
    FirstNotKeyword(text);
    assert right + "" == right;
    OperandReads(r, false, "");
    OperatorRead(op, right);
    ComparisonStep(text);
    TailReads(op, l, r, SkipSpaces(tail), right, "");
  }

  lemma ParenthesisedWhole(op: CmpOp, l: Expr, r: Expr)
    requires Readable(l, true) && IsOperand(r) && Readable(r, false)
    ensures ExprOr(Parenthesised(op, l, r)) == Ok(Parsed(Compare(op, l, r), ""))
  {
    ParenthesisedComparison(op, l, r);
    AndStops(Compare(op, l, r), ExprNot(Parenthesised(op, l, r)).value.rest, "");
    OrStops(Compare(op, l, r), "", "");
  }

  lemma ComparedLexical(table: string, op: CmpOp, l: Expr, r: Expr)
    requires IsIdent(table) && Readable(l, true) && IsOperand(r) && Readable(r, false)
    ensures
      var stmt := SelectAll(table, Compare(op, l, r));
      LexicalStatement(stmt) && StatementEmbedded(stmt) == 0 && (ShapedStatement(stmt) <==> IsOperand(l))
  {
    assert EmbeddedQuotes(Compare(op, l, r)) == EmbeddedQuotes(l) + EmbeddedQuotes(r);
  }

  /** The parser accepts every expression, in parentheses, as an operand of a
      comparison; printed, the statement is read back iff it is not a comparison or a
      negation, around which no parentheses are printed. */
  lemma UnshapedAccepted(table: string, op: CmpOp, l: Expr, r: Expr)
    requires IsIdent(table) && Readable(l, true) && IsOperand(r) && Readable(r, false)
    ensures
      var stmt := SelectAll(table, Compare(op, l, r));
      && Statement(QueryText(table, Parenthesised(op, l, r))) == Ok(stmt)
      && (Statement(StatementText(stmt)) == Ok(stmt) <==> IsOperand(l))
  {
    ParenthesisedWhole(op, l, r);
    SelectWhere(table, Parenthesised(op, l, r), Compare(op, l, r));
    ComparedLexical(table, op, l, r);
    StatementRoundTrips(SelectAll(table, Compare(op, l, r)));
  }

  const INNER := Compare(Equal, ColumnRef("a"), IntLiteral(1))

  lemma InnerReadable()
    ensures Readable(INNER, true) && Readable(IntLiteral(2), false)
    ensures ToSql(INNER) == "a = 1" && ToSql(IntLiteral(2)) == "2"
  {
    assert Upper(AliasPart("a"))[0] == 'A';
    assert IntText(1) == "1" && IntText(2) == "2";
  }

  lemma ComparedText()
    ensures "(" + ("a = 1" + (")" + (" = " + "2"))) == "(a = 1) = 2"
  {
  }

  /** SELECT * FROM table WHERE (a = 1) = 2. */
  lemma ComparedComparison(table: string)
    requires IsIdent(table)
    ensures
      var stmt := SelectAll(table, Compare(Equal, INNER, IntLiteral(2)));
      Statement(QueryText(table, "(a = 1) = 2")) == Ok(stmt) && Statement(StatementText(stmt)) != Ok(stmt)
  {
    InnerReadable();
    UnshapedAccepted(table, Equal, INNER, IntLiteral(2));
    ComparedText();
  }

  // ---- A quote in a literal ----

  lemma QuotedComparison(name: string, text: string)
    requires IsName(name) && Upper(AliasPart(name)) != "NOT" && AllAscii(text)
    ensures ExprOr(name + (" = " + ("'" + (DoubleQuotes(text) + "'")))) ==
      Ok(Parsed(Compare(Equal, ColumnRef(name), StringLiteral(text)), ""))
  {
    var right := "'" + (DoubleQuotes(text) + "'");
    var tail := OpText(Equal) + right;
    var whole := name + tail;
    OperatorRead(Equal, right);
    ColumnReads(name, tail);
    NameNotKeyword(name, tail);
    ComparisonStep(whole);
    assert DoubleQuotes(text) + "'" + "" == DoubleQuotes(text) + "'";
    QuotedRead(text, "");
    QuoteOpens(DoubleQuotes(text) + "'");
    TailReads(Equal, ColumnRef(name), StringLiteral(text), SkipSpaces(tail), right, "");
    AndStops(Compare(Equal, ColumnRef(name), StringLiteral(text)), ExprNot(whole).value.rest, "");
    OrStops(Compare(Equal, ColumnRef(name), StringLiteral(text)), "", "");
  }

  function Quoted(name: string, text: string): string { name + (" = " + ("'" + (DoubleQuotes(text) + "'"))) }

  lemma QuotedLexical(table: string, name: string, text: string)
    requires IsIdent(table) && IsName(name) && Upper(AliasPart(name)) != "NOT" && AllAscii(text)
    ensures
      var stmt := SelectAll(table, Compare(Equal, ColumnRef(name), StringLiteral(text)));
      LexicalStatement(stmt) && ShapedStatement(stmt) && StatementEmbedded(stmt) == Quotes(text)
  {
    var e := Compare(Equal, ColumnRef(name), StringLiteral(text));
    assert EmbeddedQuotes(e) == EmbeddedQuotes(ColumnRef(name)) + EmbeddedQuotes(StringLiteral(text));
  }

  /** The parser accepts any ASCII text as a literal, with its quotes doubled; the
      statement is read back from its printed text iff there are none. */
  lemma QuotedLiteral(table: string, name: string, text: string)
    requires IsIdent(table) && IsName(name) && Upper(AliasPart(name)) != "NOT" && AllAscii(text)
    ensures
      var stmt := SelectAll(table, Compare(Equal, ColumnRef(name), StringLiteral(text)));
      && Statement(QueryText(table, Quoted(name, text))) == Ok(stmt)
      && (Statement(StatementText(stmt)) == Ok(stmt) <==> '\'' !in text)
  {
    var e := Compare(Equal, ColumnRef(name), StringLiteral(text));
    QuotedComparison(name, text);
    SelectWhere(table, Quoted(name, text), e);
    QuotedLexical(table, name, text);
    StatementRoundTrips(SelectAll(table, e));
    NoQuotesIn(text);
  }

  lemma Doubled()
    ensures DoubleQuotes("it's") == "it''s" && "it's"[2] == '\''
  {
    assert "it's"[1..] == "t's" && "t's"[1..] == "'s" && "'s"[1..] == "s" && "s"[1..] == "";
  }

  lemma QuotedText()
    ensures "a" + (" = " + ("'" + ("it''s" + "'"))) == "a = 'it''s'"
  {
  }

  /** SELECT * FROM table WHERE a = 'it''s'. */
  lemma EmbeddedQuote(table: string)
    requires IsIdent(table)
    ensures
      var stmt := SelectAll(table, Compare(Equal, ColumnRef("a"), StringLiteral("it's")));
      Statement(QueryText(table, "a = 'it''s'")) == Ok(stmt) && Statement(StatementText(stmt)) != Ok(stmt)
  {
    assert Upper(AliasPart("a"))[0] == 'A';
    QuotedLiteral(table, "a", "it's");
    Doubled();
    QuotedText();
  }
}
