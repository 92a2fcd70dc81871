// When the interactive client submits the text typed so far.

module Terminal {
  import opened Ast
  import opened Lexer
  import opened Grammar
  import opened SqlRoundTrip

  /** Whether a scan that starts outside a string ends inside one. */
  predicate EndsInString(sql: string) { Quotes(sql) % 2 == 1 }

  /** A doubled quote inside a string is skipped as a pair, which leaves the parity
      of the quotes seen unchanged. */
  method HasStatementTerminator(sql: string) returns (complete: bool)
    ensures complete <==> !EndsInString(sql) && ';' in sql
  {
    var inString := false;
    var i := 0;
    while i < |sql|
      invariant i <= |sql| && inString == EndsInString(sql[..i])
    {
      QuotesSnoc(sql, i);
      if sql[i] == '\'' {
        if inString && i + 1 < |sql| && sql[i + 1] == '\'' {
          QuotesSnoc(sql, i + 1);
          i := i + 1;
        } else {
          inString := !inString;
        }
      }
      i := i + 1;
    }
    assert sql[..|sql|] == sql;
    complete := !inString && ';' in sql;
  }

  lemma QuotesSnoc(s: string, k: nat)
    requires k < |s|
    ensures Quotes(s[..k + 1]) == Quotes(s[..k]) + if s[k] == '\'' then 1 else 0
  {
    assert s[..k + 1] == s[..k] + [s[k]];
    QuotesConcat(s[..k], [s[k]]);
    assert [s[k]][1..] == "";
  }

  lemma {:induction false} JoinsQuotesEven(joins: seq<JoinClause>, k: nat)
    requires k <= |joins|
    ensures JoinsQuotes(joins, k) % 2 == 0
    decreases |joins| - k
  {
    if k < |joins| {
      JoinsQuotesEven(joins, k + 1);
    }
  }

  lemma StatementQuotesEven(stmt: SelectStatement)
    ensures StatementQuotes(stmt) % 2 == 0
  {
    JoinsQuotesEven(stmt.joins, 0);
  }

  /** The quote scan never holds back a text the parser accepts: accepted text is
      submitted exactly when it contains a semicolon. */
  lemma AcceptedTextIsComplete(sql: string)
    requires Statement(sql).Ok?
    ensures !EndsInString(sql)
  {
    StatementOutput(sql);
    StatementQuotesEven(Statement(sql).value);
  }
}
