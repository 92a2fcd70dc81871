// Parsing a printed expression gives the expression back.

module RoundTrip {
  import opened Common
  import opened Ast
  import opened Lexer
  import opened Printer
  import opened Grammar

  // ---- Which trees ----

  predicate IsLeaf(e: Expr) { e.ColumnRef? || e.IntLiteral? || e.StringLiteral? }

  /** Operands that are printed as one primary. */
  predicate IsOperand(e: Expr) { IsLeaf(e) || e.And? || e.Or? }

  /** No comparison has a comparison or a negation as a direct operand; every
      predicate the analyzer accepts has this shape. */
  predicate Shaped(e: Expr) {
    match e
    case ColumnRef(_) => true
    case IntLiteral(_) => true
    case StringLiteral(_) => true
    case Not(l) => Shaped(l)
    case Compare(_, l, r) => IsOperand(l) && IsOperand(r) && Shaped(l) && Shaped(r)
    case And(l, r) => Shaped(l) && Shaped(r)
    case Or(l, r) => Shaped(l) && Shaped(r)
  }

  /** Names, integers and characters the lexer can produce. At the start of an
      operand of NOT, AND or OR a column spelled NOT would be read as the keyword. */
  predicate Lexical(e: Expr, first: bool) {
    match e
    case ColumnRef(name) => IsName(name) && (first ==> Upper(AliasPart(name)) != "NOT")
    case IntLiteral(v) => -INT64_MAX <= v <= INT64_MAX
    case StringLiteral(text) => AllAscii(text)
    case Not(l) => Lexical(l, true)
    case Compare(_, l, r) => Lexical(l, true) && Lexical(r, false)
    case And(l, r) => Lexical(l, true) && Lexical(r, true)
    case Or(l, r) => Lexical(l, true) && Lexical(r, true)
  }

  /** Embedded quotes in string literals. */
  function EmbeddedQuotes(e: Expr): nat {
    match e
    case ColumnRef(_) => 0
    case IntLiteral(_) => 0
    case StringLiteral(text) => Quotes(text)
    case Not(l) => EmbeddedQuotes(l)
    case Compare(_, l, r) => EmbeddedQuotes(l) + EmbeddedQuotes(r)
    case And(l, r) => EmbeddedQuotes(l) + EmbeddedQuotes(r)
    case Or(l, r) => EmbeddedQuotes(l) + EmbeddedQuotes(r)
  }

  predicate Readable(e: Expr, first: bool) {
    Shaped(e) && Lexical(e, first) && EmbeddedQuotes(e) == 0
  }

  // ---- Which following texts ----

  /** The text does not continue a name, number or string literal. */
  predicate EndsLeaf(rest: string) {
    && EndsWord(rest) && (rest != "" ==> rest[0] != '\'')
    && var t := SkipSpaces(rest);
    t == "" || t[0] != '.'
  }

  predicate Ends(rest: string) { EndsLeaf(rest) && ReadOperator(SkipSpaces(rest)).None? }

  /** The text cannot extend an expression that ends before it. */
  predicate EndsExpr(rest: string) {
    Ends(rest) && !TryKeyword("AND", rest).value && !TryKeyword("OR", rest).value
  }

  /** e was read, up to white space before what follows. */
  predicate ReadsAs(r: Result<Parsed<Expr>>, e: Expr, rest: string) {
    r.Ok? && r.value.value == e && SkipSpaces(r.value.rest) == SkipSpaces(rest)
  }

  // ---- Tokens between operands ----

  lemma KeywordRead(kw: string, wanted: string, rest: string)
    requires IsIdent(kw) && Upper(kw) == kw && EndsWord(rest)
    ensures TryKeyword(wanted, " " + (kw + rest)) ==
      if wanted == kw then Parsed(true, rest) else Parsed(false, kw + rest)
  {
    SkipOneSpace(kw + rest);
    WordRead(kw, rest);
    assert (kw + rest)[0] == kw[0];
  }

  function OpToken(op: CmpOp): string {
    match op
    case Equal => "="
    case NotEqual => "!="
    case GreaterThan => ">"
    case LessThan => "<"
    case GreaterEqual => ">="
    case LessEqual => "<="
  }

  lemma TokenRead(op: CmpOp, after: string)
    requires after != "" && after[0] == ' '
    ensures ReadOperator(OpToken(op) + after) == Some(Parsed(op, after))
  {
    var token := OpToken(op);
    var text := token + after;
    assert text[|token|..] == after;
    assert text[0] == token[0] && text[1] == if |token| == 2 then token[1] else ' ';
  }

  lemma OperatorRead(op: CmpOp, rest: string)
    ensures SkipSpaces(OpText(op) + rest) != "" && EndsLeaf(OpText(op) + rest)
    ensures ReadOperator(SkipSpaces(OpText(op) + rest)) == Some(Parsed(op, " " + rest))
  {
    var token := OpToken(op);
    assert OpText(op) == " " + token + " ";
    Regrouping(token, rest);
    SkipOneSpace(token + (" " + rest));
    TokenRead(op, " " + rest);
  }

  lemma Regrouping(token: string, rest: string)
    ensures " " + token + " " + rest == " " + (token + (" " + rest))
  {
  }

  lemma ClosedRead(rest: string)
    ensures EndsExpr(")" + rest) && ExpectChar(')', ")" + rest) == Ok(rest)
  {
    assert (")" + rest)[1..] == rest;
  }

  lemma PrimarySkips(s: string, t: string)
    requires SkipSpaces(s) == SkipSpaces(t)
    ensures ExprPrimary(s) == ExprPrimary(t)
  {
  }

  lemma NotSkips(s: string, t: string)
    requires SkipSpaces(s) == SkipSpaces(t)
    ensures ExprNot(s) == ExprNot(t)
  {
  }

  lemma AndSkips(s: string, t: string)
    requires SkipSpaces(s) == SkipSpaces(t)
    ensures ExprAnd(s) == ExprAnd(t)
  {
    NotSkips(s, t);
  }

  lemma AndStops(left: Expr, s: string, rest: string)
    requires SkipSpaces(s) == SkipSpaces(rest) && !TryKeyword("AND", rest).value
    ensures AndTail(left, s) == Ok(Parsed(left, SkipSpaces(rest)))
  {
  }

  lemma OrStops(left: Expr, s: string, rest: string)
    requires SkipSpaces(s) == SkipSpaces(rest) && !TryKeyword("OR", rest).value
    ensures OrTail(left, s) == Ok(Parsed(left, SkipSpaces(rest)))
  {
  }

  // ---- Leaves ----

  lemma ColumnReads(name: string, rest: string)
    requires IsName(name) && EndsLeaf(rest)
    ensures ReadsAs(ExprPrimary(name + rest), ColumnRef(name), rest)
  {
    NameRead(name, rest);
    assert (name + rest)[0] == name[0];
  }

  lemma IntReads(v: int, rest: string)
    requires -INT64_MAX <= v <= INT64_MAX && EndsLeaf(rest)
    ensures ReadsAs(ExprPrimary(IntText(v) + rest), IntLiteral(v), rest)
  {
    IntRead(v, rest);
    assert (IntText(v) + rest)[0] == IntText(v)[0];
  }

  lemma QuoteOpens(s: string)
    ensures ReadString("'" + s) == ReadQuoted(s)
    ensures ExprPrimary("'" + s) == match ReadQuoted(s)
                                    case Err(error) => Err(error)
                                    case Ok(text) => Ok(Parsed(StringLiteral(text.value), text.rest))
  {
    assert ("'" + s)[1..] == s;
  }

  lemma StringReads(text: string, rest: string)
    requires AllAscii(text) && Quotes(text) == 0 && EndsLeaf(rest)
    ensures ReadsAs(ExprPrimary("'" + text + "'" + rest), StringLiteral(text), rest)
  {
    NoQuotesIn(text);
    WithoutQuotes(text);
    QuotedRead(text, rest);
    Regroup("'", text, "'", rest);
    QuoteOpens(text + "'" + rest);
  }

  lemma LeafReads(e: Expr, first: bool, rest: string)
    requires IsLeaf(e) && Readable(e, first) && EndsLeaf(rest)
    ensures ReadsAs(ExprPrimary(ToSql(e) + rest), e, rest)
  {
    match e
    case ColumnRef(name) => ColumnReads(name, rest);
    case IntLiteral(v) => IntReads(v, rest);
    case StringLiteral(text) => StringReads(text, rest);
  }

  // ---- No printed text but NOT(...) starts with the word NOT ----

  lemma NameNotKeyword(name: string, rest: string)
    requires IsName(name) && Upper(AliasPart(name)) != "NOT" && EndsWord(rest)
    ensures !TryKeyword("NOT", name + rest).value
  {
    var alias := AliasPart(name);
    if Qualified(name) {
      DottedName(name);
      Regroup(alias, ".", BareName(name), rest);
      WordRead(alias, "." + BareName(name) + rest);
    } else {
      WordRead(name, rest);
    }
    assert (name + rest)[0] == name[0];
  }

  lemma LeafNotKeyword(e: Expr, rest: string)
    requires IsLeaf(e) && Lexical(e, true) && EndsWord(rest)
    ensures !TryKeyword("NOT", ToSql(e) + rest).value
  {
    match e
    case ColumnRef(name) =>
      NameNotKeyword(name, rest);
    case IntLiteral(v) =>
      var text := IntText(v) + rest;
      assert text[0] == IntText(v)[0];
      FirstNotKeyword(text);
    case StringLiteral(_) =>
      FirstNotKeyword(ToSql(e) + rest);
  }

  lemma FirstNotKeyword(text: string)
    requires text != "" && !IsSpace(text[0]) && !IsAlpha(text[0])
    ensures !TryKeyword("NOT", text).value
  {
    var word := text[..WordLength(text)];
    if word != "" {
      assert word[0] == text[0];
      assert Upper(word)[0] == text[0];
    }
  }

  lemma {:induction false} OperandNotKeyword(e: Expr, rest: string)
    requires IsOperand(e) && Lexical(e, true) && EndsWord(rest)
    ensures !TryKeyword("NOT", ToSql(e) + rest).value
  {
    if IsLeaf(e) {
      LeafNotKeyword(e, rest);
    } else {
      FirstNotKeyword(ToSql(e) + rest);
    }
  }

  // ---- Composed expressions ----

  function Joined(word: string, left: string, right: string, rest: string): string {
    left + (" " + (word + (" " + (right + (")" + rest)))))
  }

  lemma ParenText(e: Expr, word: string, rest: string)
    requires (e.And? && word == "AND") || (e.Or? && word == "OR")
    ensures ToSql(e) + rest == "(" + Joined(word, ToSql(e.left), ToSql(e.right), rest)
  {
    var l, r := ToSql(e.left), ToSql(e.right);
    assert ToSql(e) == "(" + l + (" " + word + " ") + r + ")" by {
      assert " " + "AND" + " " == " AND ";
      assert " " + "OR" + " " == " OR ";
    }
    Regrouped(l, word, r, rest);
  }

  lemma Regrouped(l: string, word: string, r: string, rest: string)
    ensures "(" + l + (" " + word + " ") + r + ")" + rest == "(" + Joined(word, l, r, rest)
  {
  }

  /** Inside the parentheses of an AND. */
  lemma AndInside(l: Expr, r: Expr, rest: string, right: string)
    requires right == ToSql(r) + (")" + rest)
    requires ReadsAs(ExprNot(ToSql(l) + (" " + ("AND" + (" " + right)))), l, " " + ("AND" + (" " + right)))
    requires ReadsAs(ExprNot(right), r, ")" + rest)
    ensures ExprOr(ToSql(l) + (" " + ("AND" + (" " + right)))) == Ok(Parsed(And(l, r), ")" + rest))
  {
    var s := ToSql(l) + (" " + ("AND" + (" " + right)));
    KeywordRead("AND", "AND", " " + right);
    SkipOneSpace(right);
    NotSkips(" " + right, right);
    ClosedRead(rest);
    var left, second := ExprNot(s).value, ExprNot(right).value;
    AndStops(And(l, r), second.rest, ")" + rest);
    assert AndTail(l, left.rest) == Ok(Parsed(And(l, r), ")" + rest));
    OrStops(And(l, r), ")" + rest, ")" + rest);
  }

  lemma OrInside(l: Expr, r: Expr, rest: string, right: string)
    requires right == ToSql(r) + (")" + rest)
    requires ReadsAs(ExprNot(ToSql(l) + (" " + ("OR" + (" " + right)))), l, " " + ("OR" + (" " + right)))
    requires ReadsAs(ExprNot(right), r, ")" + rest)
    ensures ExprOr(ToSql(l) + (" " + ("OR" + (" " + right)))) == Ok(Parsed(Or(l, r), ")" + rest))
  {
    var s := ToSql(l) + (" " + ("OR" + (" " + right)));
    var tail := " " + ("OR" + (" " + right));
    KeywordRead("OR", "AND", " " + right);
    KeywordRead("OR", "OR", " " + right);
    SkipOneSpace(right);
    AndSkips(" " + right, right);
    ClosedRead(rest);
    AndStops(l, ExprNot(s).value.rest, tail);
    AndStops(r, ExprNot(right).value.rest, ")" + rest);
    assert ExprAnd(s) == Ok(Parsed(l, SkipSpaces(tail)));
    assert ExprAnd(" " + right) == Ok(Parsed(r, ")" + rest));
    OrStops(Or(l, r), ")" + rest, ")" + rest);
    assert OrTail(l, SkipSpaces(tail)) == Ok(Parsed(Or(l, r), ")" + rest));
  }

  lemma ParenRead(inner: string, e: Expr, rest: string)
    requires ExprOr(inner) == Ok(Parsed(e, ")" + rest))
    ensures ExprPrimary("(" + inner) == Ok(Parsed(e, rest))
  {
    assert ("(" + inner)[1..] == inner;
    ClosedRead(rest);
  }

  lemma {:induction false} OperandReads(e: Expr, first: bool, rest: string)
    requires IsOperand(e) && Readable(e, first) && EndsLeaf(rest)
    ensures ReadsAs(ExprPrimary(ToSql(e) + rest), e, rest)
    decreases e, 0
  {
    if IsLeaf(e) {
      LeafReads(e, first, rest);
    } else {
      var word := if e.And? then "AND" else "OR";
      var right := ToSql(e.right) + (")" + rest);
      ParenText(e, word, rest);
      ClosedRead(rest);
      NotReads(e.right, ")" + rest);
      BetweenEnds(word, right);
      NotReads(e.left, " " + (word + (" " + right)));
      if e.And? {
        AndInside(e.left, e.right, rest, right);
      } else {
        OrInside(e.left, e.right, rest, right);
      }
      ParenRead(Joined(word, ToSql(e.left), ToSql(e.right), rest), e, rest);
    }
  }

  lemma BetweenEnds(word: string, right: string)
    requires word == "AND" || word == "OR"
    ensures Ends(" " + (word + (" " + right)))
  {
    SkipOneSpace(word + (" " + right));
    assert (word + (" " + right))[0] == word[0];
  }

  lemma ComparisonText(op: CmpOp, l: string, r: string, rest: string)
    ensures l + OpText(op) + r + rest == l + (OpText(op) + (r + rest))
  {
  }

  lemma {:induction false} ComparisonReads(e: Expr, rest: string)
    requires e.Compare? && Readable(e, true) && EndsLeaf(rest)
    ensures ReadsAs(ExprNot(ToSql(e) + rest), e, rest)
    decreases e, 1
  {
    var right := ToSql(e.right) + rest;
    var tail := OpText(e.op) + right;
    ComparisonText(e.op, ToSql(e.left), ToSql(e.right), rest);
    OperatorRead(e.op, right);
    OperandReads(e.left, true, tail);
    OperandReads(e.right, false, rest);
    OperandNotKeyword(e.left, tail);
    ComparisonAssembled(e.op, e.left, e.right, ToSql(e.left) + tail, tail, right, rest);
  }

  /** Unless it starts with NOT, an operand of AND is a primary and what follows it. */
  lemma ComparisonStep(s: string)
    requires !TryKeyword("NOT", s).value && ExprPrimary(s).Ok?
    ensures ExprNot(s) == ComparisonTail(ExprPrimary(s).value.value, SkipSpaces(ExprPrimary(s).value.rest))
  {
    PrimarySkips(SkipSpaces(s), s);
    assert ExprNot(s) == ExprComparison(SkipSpaces(s));
  }

  lemma TailReads(op: CmpOp, l: Expr, r: Expr, tail: string, right: string, rest: string)
    requires ReadsAs(ExprPrimary(right), r, rest)
    requires ReadOperator(tail) == Some(Parsed(op, " " + right))
    ensures ReadsAs(ComparisonTail(l, tail), Compare(op, l, r), rest)
  {
    SkipOneSpace(right);
    PrimarySkips(" " + right, right);
  }

  lemma ComparisonAssembled(op: CmpOp, l: Expr, r: Expr, s: string, tail: string, right: string, rest: string)
    requires ReadsAs(ExprPrimary(s), l, tail) && ReadsAs(ExprPrimary(right), r, rest)
    requires ReadOperator(SkipSpaces(tail)) == Some(Parsed(op, " " + right))
    requires !TryKeyword("NOT", s).value
    ensures ReadsAs(ExprNot(s), Compare(op, l, r), rest)
  {
    ComparisonStep(s);
    TailReads(op, l, r, SkipSpaces(tail), right, rest);
  }

  lemma OperandAlone(e: Expr, s: string, rest: string)
    requires ReadsAs(ExprPrimary(s), e, rest) && Ends(rest) && !TryKeyword("NOT", s).value
    ensures ReadsAs(ExprNot(s), e, rest)
  {
    ComparisonStep(s);
  }

  lemma NotAssembled(l: Expr, inner: string, rest: string)
    requires ExprOr(inner) == Ok(Parsed(l, ")" + rest)) && Ends(rest)
    ensures ReadsAs(ExprNot("NOT" + ("(" + inner)), Not(l), rest)
  {
    var text := "(" + inner;
    ParenRead(inner, l, rest);
    FirstNotKeyword(text);
    OperandAlone(l, text, rest);
    WordRead("NOT", text);
    assert ("NOT" + text)[0] == 'N';
  }

  /** A readable tree, printed at the start of an operand of AND. */
  lemma {:induction false} NotReads(e: Expr, rest: string)
    requires Readable(e, true) && Ends(rest)
    ensures ReadsAs(ExprNot(ToSql(e) + rest), e, rest)
    decreases e, 2
  {
    if e.Compare? {
      ComparisonReads(e, rest);
    } else if e.Not? {
      ClosedRead(rest);
      OrReads(e.left, ")" + rest);
      assert "NOT(" + ToSql(e.left) + ")" + rest == "NOT" + ("(" + (ToSql(e.left) + (")" + rest)));
      NotAssembled(e.left, ToSql(e.left) + (")" + rest), rest);
    } else {
      OperandReads(e, true, rest);
      OperandNotKeyword(e, rest);
      OperandAlone(e, ToSql(e) + rest, rest);
    }
  }

  /** Every readable tree, followed by any text that cannot extend it, reads back as
      itself; the cursor stops at its end, past white space. */
  lemma {:induction false} OrReads(e: Expr, rest: string)
    requires Readable(e, true) && EndsExpr(rest)
    ensures ExprOr(ToSql(e) + rest) == Ok(Parsed(e, SkipSpaces(rest)))
    decreases e, 3
  {
    NotReads(e, rest);
    var read := ExprNot(ToSql(e) + rest).value;
    AndStops(e, read.rest, rest);
    OrStops(e, SkipSpaces(rest), rest);
  }
}
