// What the expression parser can produce, for every input text: lexical trees, with
// every quote of the text accounted for.

module ParserOutput {
  import opened Common
  import opened Ast
  import opened Lexer
  import opened Printer
  import opened Grammar
  import opened RoundTrip

  function StringCount(e: Expr): nat {
    match e
    case ColumnRef(_) => 0
    case IntLiteral(_) => 0
    case StringLiteral(_) => 1
    case Not(l) => StringCount(l)
    case Compare(_, l, r) => StringCount(l) + StringCount(r)
    case And(l, r) => StringCount(l) + StringCount(r)
    case Or(l, r) => StringCount(l) + StringCount(r)
  }

  /** Quotes in a text that is read as e: two around each string literal, and two
      for each embedded quote. */
  function QuotesRead(e: Expr): nat { 2 * StringCount(e) + 2 * EmbeddedQuotes(e) }

  ghost predicate Accounts(r: Result<Parsed<Expr>>, s: string, first: bool) {
    r.Ok? ==> Lexical(r.value.value, first) && Quotes(s) == QuotesRead(r.value.value) + Quotes(r.value.rest)
  }

  // ---- Tokens ----

  lemma {:induction false} SkipKeepsQuotes(s: string)
    ensures Quotes(SkipSpaces(s)) == Quotes(s)
  {
    if s != "" && IsSpace(s[0]) {
      SkipKeepsQuotes(s[1..]);
    }
  }

  lemma DropWord(t: string, n: nat)
    requires n <= |t| && forall i :: 0 <= i < n ==> t[i] != '\''
    ensures Quotes(t[n..]) == Quotes(t)
  {
    QuotesSplit(t, n);
    NoQuotesIn(t[..n]);
  }

  lemma KeywordQuotes(kw: string, s: string)
    ensures Quotes(TryKeyword(kw, s).rest) == Quotes(s)
  {
    SkipKeepsQuotes(s);
    DropWord(SkipSpaces(s), WordLength(SkipSpaces(s)));
  }

  lemma CharQuotes(c: char, s: string)
    requires c != '\'' && ExpectChar(c, s).Ok?
    ensures Quotes(ExpectChar(c, s).value) == Quotes(s)
  {
    SkipKeepsQuotes(s);
    DropWord(SkipSpaces(s), 1);
  }

  lemma IdentOutput(s: string)
    requires ReadIdent(s).Ok?
    ensures IsIdent(ReadIdent(s).value.value) && Quotes(ReadIdent(s).value.rest) == Quotes(s)
    ensures ReadIdent(s).value.value == SkipSpaces(s)[..WordLength(SkipSpaces(s))]
  {
    SkipKeepsQuotes(s);
    DropWord(SkipSpaces(s), WordLength(SkipSpaces(s)));
  }

  lemma DotAfter(alias: string, bare: string)
    requires IsIdent(alias)
    ensures AliasPart(alias + "." + bare) == alias && Qualified(alias + "." + bare)
    ensures BareName(alias + "." + bare) == bare
    ensures !Qualified(alias) && AliasPart(alias) == alias
  {
    var name := alias + "." + bare;
    assert forall i :: 0 <= i < |alias| ==> name[i] == alias[i];
    assert name[|alias|] == '.';
    assert DotAt(name) == |alias|;
    assert name[|alias| + 1..] == bare;
    assert DotAt(alias) == |alias|;
  }

  /** A name read from any text is one identifier or two, the first being its first
      word. */
  lemma NameOutput(s: string)
    requires ReadName(s).Ok?
    ensures IsName(ReadName(s).value.value) && Quotes(ReadName(s).value.rest) == Quotes(s)
    ensures AliasPart(ReadName(s).value.value) == SkipSpaces(s)[..WordLength(SkipSpaces(s))]
  {
    IdentOutput(s);
    var first := ReadIdent(s).value;
    SkipKeepsQuotes(first.rest);
    var t := SkipSpaces(first.rest);
    DotAfter(first.value, "");
    if t != "" && t[0] == '.' {
      DropWord(t, 1);
      IdentOutput(t[1..]);
      DotAfter(first.value, ReadIdent(t[1..]).value.value);
    }
  }

  lemma DigitsOutput(neg: bool, s: string)
    requires ReadDigits(neg, s).Ok?
    ensures Quotes(ReadDigits(neg, s).value.rest) == Quotes(s)
  {
    DropWord(s, DigitsLength(s));
  }

  lemma IntOutput(s: string)
    requires ReadInt(s).Ok?
    ensures Quotes(ReadInt(s).value.rest) == Quotes(s)
  {
    SkipKeepsQuotes(s);
    var t := SkipSpaces(s);
    if t != "" && t[0] == '-' {
      DropWord(t, 1);
      DigitsOutput(true, t[1..]);
    } else {
      DigitsOutput(false, t);
    }
  }

  lemma {:induction false} QuotedOutput(s: string)
    requires ReadQuoted(s).Ok?
    ensures
      var r := ReadQuoted(s).value;
      AllAscii(r.value) && Quotes(s) == 1 + 2 * Quotes(r.value) + Quotes(r.rest)
  {
    if s[0] != '\'' {
      QuotedOutput(s[1..]);
      PushedQuotes(s[0], ReadQuoted(s[1..]).value.value);
    } else if |s| > 1 && s[1] == '\'' {
      QuotedOutput(s[2..]);
      PushedQuotes('\'', ReadQuoted(s[2..]).value.value);
      assert s[1..][1..] == s[2..];
    }
  }

  lemma PushedQuotes(c: char, value: string)
    ensures Quotes([c] + value) == (if c == '\'' then 1 else 0) + Quotes(value)
  {
    assert ([c] + value)[1..] == value;
  }

  // ---- Expressions ----

  lemma LeafOutput(s: string)
    requires SkipSpaces(s) != "" && SkipSpaces(s)[0] != '('
    ensures Accounts(ExprPrimary(s), s, false)
    ensures !TryKeyword("NOT", s).value ==> Accounts(ExprPrimary(s), s, true)
  {
    var t := SkipSpaces(s);
    SkipKeepsQuotes(s);
    if IsDigit(t[0]) || t[0] == '-' {
      if ReadInt(t).Ok? {
        IntOutput(t);
      }
    } else if t[0] == '\'' {
      if ReadQuoted(t[1..]).Ok? {
        QuotedOutput(t[1..]);
      }
    } else if ReadName(t).Ok? {
      NameOutput(t);
    }
  }

  lemma {:induction false} PrimaryOutput(s: string)
    ensures Accounts(ExprPrimary(s), s, false)
    ensures !TryKeyword("NOT", s).value ==> Accounts(ExprPrimary(s), s, true)
    decreases |s|, 0
  {
    var t := SkipSpaces(s);
    if t != "" {
      if t[0] != '(' {
        LeafOutput(s);
      } else {
        SkipKeepsQuotes(s);
        DropWord(t, 1);
        OrOutput(t[1..]);
        if ExprOr(t[1..]).Ok? && ExpectChar(')', ExprOr(t[1..]).value.rest).Ok? {
          CharQuotes(')', ExprOr(t[1..]).value.rest);
          FirstIrrelevant(ExprOr(t[1..]).value.value);
        }
      }
    }
  }

  lemma FirstIrrelevant(e: Expr)
    requires Lexical(e, true)
    ensures Lexical(e, false)
  {
  }

  lemma OperatorQuotes(s: string)
    requires ReadOperator(s).Some?
    ensures Quotes(ReadOperator(s).value.rest) == Quotes(s)
  {
    DropWord(s, |s| - |ReadOperator(s).value.rest|);
  }

  lemma {:induction false} ComparisonOutput(s: string)
    requires !TryKeyword("NOT", s).value
    ensures Accounts(ExprComparison(s), s, true)
    decreases |s|, 1
  {
    PrimaryOutput(s);
    if ExprPrimary(s).Ok? {
      var left := ExprPrimary(s).value;
      SkipKeepsQuotes(left.rest);
      var t := SkipSpaces(left.rest);
      if ReadOperator(t).Some? {
        OperatorQuotes(t);
        PrimaryOutput(ReadOperator(t).value.rest);
      }
    }
  }

  lemma {:induction false} NotOutput(s: string)
    ensures Accounts(ExprNot(s), s, true)
    decreases |s|, 2
  {
    var k := TryKeyword("NOT", s);
    KeywordQuotes("NOT", s);
    if k.value {
      NotOutput(k.rest);
    } else {
      ComparisonOutput(k.rest);
    }
  }

  lemma {:induction false} AndTailOutput(left: Expr, s: string)
    requires Lexical(left, true)
    ensures
      var r := AndTail(left, s);
      r.Ok? ==>
        Lexical(r.value.value, true) && QuotesRead(left) + Quotes(s) == QuotesRead(r.value.value) + Quotes(r.value.rest)
    decreases |s|, 2
  {
    var k := TryKeyword("AND", s);
    KeywordQuotes("AND", s);
    if k.value {
      NotOutput(k.rest);
      if ExprNot(k.rest).Ok? {
        AndTailOutput(And(left, ExprNot(k.rest).value.value), ExprNot(k.rest).value.rest);
      }
    }
  }

  lemma {:induction false} AndOutput(s: string)
    ensures Accounts(ExprAnd(s), s, true)
    decreases |s|, 3
  {
    NotOutput(s);
    if ExprNot(s).Ok? {
      AndTailOutput(ExprNot(s).value.value, ExprNot(s).value.rest);
    }
  }

  lemma {:induction false} OrTailOutput(left: Expr, s: string)
    requires Lexical(left, true)
    ensures
      var r := OrTail(left, s);
      r.Ok? ==>
        Lexical(r.value.value, true) && QuotesRead(left) + Quotes(s) == QuotesRead(r.value.value) + Quotes(r.value.rest)
    decreases |s|, 4
  {
    var k := TryKeyword("OR", s);
    KeywordQuotes("OR", s);
    if k.value {
      AndOutput(k.rest);
      if ExprAnd(k.rest).Ok? {
        OrTailOutput(Or(left, ExprAnd(k.rest).value.value), ExprAnd(k.rest).value.rest);
      }
    }
  }

  /** Whatever the text: a tree the parser returns is lexical, and the quotes it
      consumed are two per string literal and two per embedded quote. */
  lemma {:induction false} OrOutput(s: string)
    ensures Accounts(ExprOr(s), s, true)
    decreases |s|, 5
  {
    AndOutput(s);
    if ExprAnd(s).Ok? {
      OrTailOutput(ExprAnd(s).value.value, ExprAnd(s).value.rest);
    }
  }

  // ---- The printer writes each embedded quote once ----

  lemma NameWithoutQuotes(name: string)
    requires IsName(name)
    ensures Quotes(name) == 0
  {
    NoQuotesIn(name);
    if Qualified(name) {
      DottedName(name);
    }
  }

  lemma {:induction false} IntWithoutQuotes(v: int)
    ensures Quotes(IntText(v)) == 0
  {
    NoQuotesIn(IntText(v));
  }

  lemma StringTextQuotes(text: string)
    ensures Quotes("'" + text + "'") == 2 + Quotes(text)
  {
    QuotesConcat("'" + text, "'");
    QuotesConcat("'", text);
    assert "'"[1..] == "";
    assert Quotes("'") == 1;
  }

  lemma Quotes3(a: string, b: string, c: string)
    ensures Quotes(a + b + c) == Quotes(a) + Quotes(b) + Quotes(c)
  {
    QuotesConcat(a + b, c);
    QuotesConcat(a, b);
  }

  lemma PlainText(s: string)
    requires '\'' !in s
    ensures Quotes(s) == 0
  {
    NoQuotesIn(s);
  }

  lemma ConnectiveQuotes(l: string, word: string, r: string)
    requires '\'' !in word
    ensures Quotes("(" + l + word + r + ")") == Quotes(l) + Quotes(r)
  {
    Quotes3("(" + l + word, r, ")");
    Quotes3("(", l, word);
    PlainText("(");
    PlainText(word);
    PlainText(")");
  }

  lemma {:induction false} PrintedQuotes(e: Expr, first: bool)
    requires Lexical(e, first)
    ensures Quotes(ToSql(e)) == 2 * StringCount(e) + EmbeddedQuotes(e)
  {
    match e
    case ColumnRef(name) => NameWithoutQuotes(name);
    case IntLiteral(v) => IntWithoutQuotes(v);
    case StringLiteral(text) => StringTextQuotes(text);
    case Not(l) =>
      PrintedQuotes(l, true);
      Quotes3("NOT(", ToSql(l), ")");
      PlainText("NOT(");
      PlainText(")");
    case Compare(op, l, r) =>
      PrintedQuotes(l, true);
      PrintedQuotes(r, false);
      Quotes3(ToSql(l), OpText(op), ToSql(r));
      PlainText(OpText(op));
    case And(l, r) =>
      PrintedQuotes(l, true);
      PrintedQuotes(r, true);
      ConnectiveQuotes(ToSql(l), " AND ", ToSql(r));
    case Or(l, r) =>
      PrintedQuotes(l, true);
      PrintedQuotes(r, true);
      ConnectiveQuotes(ToSql(l), " OR ", ToSql(r));
  }
}
