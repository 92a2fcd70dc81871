// What the parser makes of a printed tree that lacks the round-trip shape: never the
// tree itself. The printer puts no parentheses around a comparison or a negation
// that is an operand of a comparison, so the parser stops in front of the second
// operator, or reads NOT as a column and stops in front of its parenthesis.

module ShapeNeeded {
  import opened Common
  import opened Ast
  import opened Lexer
  import opened Printer
  import opened Grammar
  import opened RoundTrip
  import opened ParserOutput

  predicate Printable(e: Expr, first: bool) { Lexical(e, first) && EmbeddedQuotes(e) == 0 }

  /** A text, past white space, at which neither AND, OR, a closing parenthesis nor
      the end of the statement can be read. */
  predicate Stuck(t: string) { t != "" && (t[0] == '(' || ReadOperator(t).Some?) }

  /** The reader stopped where rest begins, or got stuck before. */
  predicate StopsAt(after: string, rest: string) {
    Stuck(SkipSpaces(after)) || SkipSpaces(after) == SkipSpaces(rest)
  }

  /** If the reader succeeds it stops at rest or gets stuck, and without the shape it
      has read something else than e. */
  predicate Misses(r: Result<Parsed<Expr>>, e: Expr, rest: string) {
    r.Ok? ==> StopsAt(r.value.rest, rest) && (!Shaped(e) ==> r.value.value != e)
  }

  /** The same for one primary, which is always an operand. */
  predicate PrimaryMisses(r: Result<Parsed<Expr>>, e: Expr, rest: string) {
    r.Ok? ==>
      && IsOperand(r.value.value) && (!Shaped(e) ==> r.value.value != e)
      && (if IsOperand(e) then SkipSpaces(r.value.rest) == SkipSpaces(rest) else Stuck(SkipSpaces(r.value.rest)))
  }

  /** The same for a printed comparison, whose left operand is one primary. */
  predicate ComparisonMisses(r: Result<Parsed<Expr>>, e: Expr, rest: string) {
    Misses(r, e, rest) && (r.Ok? ==> LeftOperand(r.value.value))
  }

  predicate LeftOperand(e: Expr) { e.Not? || (e.Compare? && IsOperand(e.left)) }

  // ---- Stuck texts ----

  lemma StuckStops(t: string, after: string)
    requires Stuck(t) && SkipSpaces(after) == t
    ensures !TryKeyword("AND", after).value && !TryKeyword("OR", after).value
    ensures TryKeyword("AND", after).rest == t && TryKeyword("OR", after).rest == t && SkipSpaces(t) == t
    ensures ExpectChar(')', after).Err?
  {
    assert WordLength(t) == 0;
    assert !IsSpace(t[0]);
  }

  // ---- Primaries ----

  lemma LeafMisses(e: Expr, first: bool, rest: string)
    requires IsLeaf(e) && Printable(e, first) && EndsLeaf(rest)
    ensures PrimaryMisses(ExprPrimary(ToSql(e) + rest), e, rest)
  {
    LeafReads(e, first, rest);
  }

  /** NOT(...) where one primary is wanted: the word is a column name. */
  lemma NegationMisses(l: Expr, rest: string)
    ensures PrimaryMisses(ExprPrimary(ToSql(Not(l)) + rest), Not(l), rest)
  {
    var inner := "(" + (ToSql(l) + (")" + rest));
    NotText(ToSql(l), rest);
    var text := "NOT" + inner;
    WordRead("NOT", inner);
    assert text[0] == 'N' && inner[0] == '(';
    IdentRead("NOT", inner);
    assert ReadName(text) == Ok(Parsed("NOT", inner));
  }

  lemma NotText(l: string, rest: string)
    ensures "NOT(" + l + ")" + rest == "NOT" + ("(" + (l + (")" + rest)))
  {
  }

  // ---- Inside parentheses both operands have to be read up to their ends ----

  /** What was read cannot be closed, or is a connective that ends in front of the
      closing parenthesis. */
  predicate InsideMisses(r: Result<Parsed<Expr>>, e: Expr, rest: string) {
    r.Ok? ==>
      || Stuck(SkipSpaces(r.value.rest))
      || (r.value.rest == ")" + rest && IsOperand(r.value.value) && (!Shaped(e) ==> r.value.value != e))
  }

  /** Nothing continues a chain at a stuck text, or at one that ends an expression. */
  lemma ChainsEnd(e: Expr, after: string, rest: string)
    requires StopsAt(after, rest) && EndsExpr(rest)
    ensures AndTail(e, after) == Ok(Parsed(e, SkipSpaces(after)))
    ensures OrTail(e, after) == Ok(Parsed(e, SkipSpaces(after)))
    ensures StopsAt(SkipSpaces(after), rest) && SkipSpaces(SkipSpaces(after)) == SkipSpaces(after)
  {
    if Stuck(SkipSpaces(after)) {
      StuckStops(SkipSpaces(after), after);
    } else {
      AndStops(e, after, rest);
      OrStops(e, after, rest);
    }
  }

  lemma WordBetween(word: string, wanted: string, after: string, right: string)
    requires word == "AND" || word == "OR"
    requires SkipSpaces(after) == SkipSpaces(" " + (word + (" " + right)))
    ensures TryKeyword(wanted, after) ==
      if wanted == word then Parsed(true, " " + right) else Parsed(false, SkipSpaces(after))
    ensures ExprNot(" " + right) == ExprNot(right) && ExprAnd(" " + right) == ExprAnd(right)
  {
    KeywordRead(word, wanted, " " + right);
    SkipOneSpace(word + (" " + right));
    assert (word + (" " + right))[0] == word[0];
    SkipOneSpace(right);
    AndSkips(" " + right, right);
    NotSkips(" " + right, right);
  }

  lemma SecondOfAnd(left: Expr, l: Expr, r: Expr, after: string, right: string, rest: string)
    requires !Shaped(l) ==> left != l
    requires SkipSpaces(after) == SkipSpaces(" " + ("AND" + (" " + right)))
    requires Misses(ExprNot(right), r, ")" + rest)
    ensures
      var chain := AndTail(left, after);
      chain.Ok? ==> InsideMisses(OrTail(chain.value.value, chain.value.rest), And(l, r), rest)
  {
    WordBetween("AND", "AND", after, right);
    if ExprNot(right).Ok? {
      var second := ExprNot(right).value;
      ClosedRead(rest);
      ChainsEnd(And(left, second.value), second.rest, ")" + rest);
      ChainsEnd(And(left, second.value), SkipSpaces(second.rest), ")" + rest);
      assert AndTail(left, after) == Ok(Parsed(And(left, second.value), SkipSpaces(second.rest)));
    }
  }

  lemma SecondOfOr(left: Expr, l: Expr, r: Expr, after: string, right: string, rest: string)
    requires !Shaped(l) ==> left != l
    requires SkipSpaces(after) == SkipSpaces(" " + ("OR" + (" " + right)))
    requires Misses(ExprNot(right), r, ")" + rest)
    ensures InsideMisses(OrTail(left, after), Or(l, r), rest)
  {
    WordBetween("OR", "OR", after, right);
    if ExprNot(right).Ok? {
      var second := ExprNot(right).value;
      ClosedRead(rest);
      ChainsEnd(second.value, second.rest, ")" + rest);
      assert ExprAnd(right) == Ok(Parsed(second.value, SkipSpaces(second.rest)));
      ChainsEnd(Or(left, second.value), SkipSpaces(second.rest), ")" + rest);
      assert OrTail(left, after) == Ok(Parsed(Or(left, second.value), SkipSpaces(second.rest)));
    }
  }

  /** A first operand that got stuck ends the chain. */
  lemma FirstStuck(s: string, e: Expr, rest: string)
    requires ExprNot(s).Ok? && Stuck(SkipSpaces(ExprNot(s).value.rest))
    ensures InsideMisses(ExprOr(s), e, rest)
  {
    var left := ExprNot(s).value;
    ClosedRead(rest);
    ChainsEnd(left.value, left.rest, ")" + rest);
    ChainsEnd(left.value, SkipSpaces(left.rest), ")" + rest);
  }

  lemma AndInsideMisses(s: string, l: Expr, r: Expr, rest: string, right: string)
    requires Misses(ExprNot(s), l, " " + ("AND" + (" " + right))) && Misses(ExprNot(right), r, ")" + rest)
    ensures InsideMisses(ExprOr(s), And(l, r), rest)
  {
    if ExprNot(s).Ok? {
      if Stuck(SkipSpaces(ExprNot(s).value.rest)) {
        FirstStuck(s, And(l, r), rest);
      } else {
        SecondOfAnd(ExprNot(s).value.value, l, r, ExprNot(s).value.rest, right, rest);
      }
    }
  }

  lemma OrInsideMisses(s: string, l: Expr, r: Expr, rest: string, right: string)
    requires Misses(ExprNot(s), l, " " + ("OR" + (" " + right))) && Misses(ExprNot(right), r, ")" + rest)
    ensures InsideMisses(ExprOr(s), Or(l, r), rest)
  {
    if ExprNot(s).Ok? {
      var left := ExprNot(s).value;
      if Stuck(SkipSpaces(left.rest)) {
        FirstStuck(s, Or(l, r), rest);
      } else {
        WordBetween("OR", "AND", left.rest, right);
        assert ExprAnd(s) == Ok(Parsed(left.value, SkipSpaces(left.rest)));
        SkipTwice(left.rest);
        SecondOfOr(left.value, l, r, SkipSpaces(left.rest), right, rest);
      }
    }
  }

  lemma SkipTwice(s: string)
    ensures SkipSpaces(SkipSpaces(s)) == SkipSpaces(s)
  {
  }

  lemma ParenCloses(inner: string, rest: string)
    requires ExprOr(inner).Ok? ==> StopsAt(ExprOr(inner).value.rest, ")" + rest)
    ensures
      var r := ExprPrimary("(" + inner);
      r.Ok? ==> ExprOr(inner).Ok? && r.value == Parsed(ExprOr(inner).value.value, rest)
  {
    assert ("(" + inner)[1..] == inner;
    ClosedRead(rest);
    if ExprOr(inner).Ok? {
      var after := ExprOr(inner).value.rest;
      if Stuck(SkipSpaces(after)) {
        StuckStops(SkipSpaces(after), after);
      } else {
        assert ExpectChar(')', after) == ExpectChar(')', ")" + rest);
      }
    }
  }

  lemma ParenMisses(inner: string, e: Expr, rest: string)
    requires IsOperand(e) && InsideMisses(ExprOr(inner), e, rest)
    ensures PrimaryMisses(ExprPrimary("(" + inner), e, rest)
  {
    ParenCloses(inner, rest);
    assert ("(" + inner)[1..] == inner;
    if ExprOr(inner).Ok? && Stuck(SkipSpaces(ExprOr(inner).value.rest)) {
      StuckStops(SkipSpaces(ExprOr(inner).value.rest), ExprOr(inner).value.rest);
    }
  }

  // ---- Comparisons ----

  /** Unless it starts with NOT, an operand of AND is a primary and what follows it. */
  lemma ComparisonSteps(s: string)
    requires !TryKeyword("NOT", s).value
    ensures ExprNot(s) == match ExprPrimary(s)
                          case Err(error) => Err(error)
                          case Ok(left) => ComparisonTail(left.value, SkipSpaces(left.rest))
  {
    PrimarySkips(SkipSpaces(s), s);
    assert ExprNot(s) == ExprComparison(SkipSpaces(s));
  }

  /** After a left operand: the right one, which has to be an operand to be read as
      itself. */
  predicate TailMisses(r: Result<Parsed<Expr>>, op: CmpOp, left: Expr, right: Expr, rest: string) {
    r.Ok? ==>
      && StopsAt(r.value.rest, rest) && r.value.value.Compare? && r.value.value.left == left
      && (!IsOperand(right) || !Shaped(right) ==> r.value.value.right != right)
  }

  lemma OperatorThen(op: CmpOp, left: Expr, r: Expr, tail: string, right: string, rest: string)
    requires PrimaryMisses(ExprPrimary(right), r, rest) && ReadOperator(tail) == Some(Parsed(op, " " + right))
    ensures TailMisses(ComparisonTail(left, tail), op, left, r, rest)
  {
    SkipOneSpace(right);
    PrimarySkips(" " + right, right);
  }

  /** The left operand is printed as one primary. */
  lemma AfterOperand(e: Expr, s: string, tail: string, right: string, rest: string)
    requires e.Compare? && IsOperand(e.left) && !TryKeyword("NOT", s).value
    requires PrimaryMisses(ExprPrimary(s), e.left, tail) && PrimaryMisses(ExprPrimary(right), e.right, rest)
    requires ReadOperator(SkipSpaces(tail)) == Some(Parsed(e.op, " " + right))
    ensures ComparisonMisses(ExprNot(s), e, rest)
  {
    ComparisonSteps(s);
    if ExprPrimary(s).Ok? {
      OperatorThen(e.op, ExprPrimary(s).value.value, e.right, SkipSpaces(tail), right, rest);
    }
  }

  /** The left operand is a comparison itself: the reader stops at the operator. */
  lemma AfterComparison(e: Expr, s: string, tail: string, rest: string)
    requires e.Compare? && e.left.Compare? && ComparisonMisses(ExprNot(s), e.left, tail) && Stuck(SkipSpaces(tail))
    ensures ComparisonMisses(ExprNot(s), e, rest)
  {
  }

  lemma NegationSteps(inner: string, rest: string)
    requires ExprOr(inner).Ok? ==> StopsAt(ExprOr(inner).value.rest, ")" + rest)
    ensures
      var r := ExprNot("NOT" + ("(" + inner));
      r.Ok? ==>
        && r.value.value.Not? && ExprOr(inner).Ok?
        && ComparisonTail(ExprOr(inner).value.value, SkipSpaces(rest)) == Ok(Parsed(r.value.value.left, r.value.rest))
  {
    var text := "(" + inner;
    ParenCloses(inner, rest);
    FirstNotKeyword(text);
    ComparisonSteps(text);
    WordRead("NOT", text);
    assert ("NOT" + text)[0] == 'N';
  }

  /** The left operand is a printed negation: the operator goes to what is negated. */
  lemma AfterNegation(e: Expr, inner: string, tail: string, right: string, rest: string)
    requires e.Compare? && e.left.Not?
    requires ExprOr(inner).Ok? ==> StopsAt(ExprOr(inner).value.rest, ")" + tail)
    requires PrimaryMisses(ExprPrimary(right), e.right, rest)
    requires ReadOperator(SkipSpaces(tail)) == Some(Parsed(e.op, " " + right))
    ensures ComparisonMisses(ExprNot("NOT" + ("(" + inner)), e, rest)
  {
    NegationSteps(inner, tail);
    if ExprOr(inner).Ok? {
      OperatorThen(e.op, ExprOr(inner).value.value, e.right, SkipSpaces(tail), right, rest);
    }
  }

  lemma NegationAlone(l: Expr, inner: string, rest: string)
    requires Misses(ExprOr(inner), l, ")" + rest) && Ends(rest)
    ensures Misses(ExprNot("NOT" + ("(" + inner)), Not(l), rest)
  {
    NegationSteps(inner, rest);
  }

  lemma PrimaryAlone(e: Expr, s: string, rest: string)
    requires IsOperand(e) && PrimaryMisses(ExprPrimary(s), e, rest) && Ends(rest) && !TryKeyword("NOT", s).value
    ensures Misses(ExprNot(s), e, rest)
  {
    ComparisonSteps(s);
  }

  // ---- Every printed tree ----

  /** Read as one primary. */
  lemma {:induction false} PrimaryOf(e: Expr, first: bool, rest: string)
    requires Printable(e, first) && EndsLeaf(rest)
    ensures PrimaryMisses(ExprPrimary(ToSql(e) + rest), e, rest)
    decreases e, 1
  {
    if IsLeaf(e) {
      LeafMisses(e, first, rest);
    } else if e.Not? {
      NegationMisses(e.left, rest);
    } else if e.Compare? {
      var right := ToSql(e.right) + rest;
      ComparisonText(e.op, ToSql(e.left), ToSql(e.right), rest);
      OperatorRead(e.op, right);
      PrimaryOf(e.left, true, OpText(e.op) + right);
    } else {
      ConnectiveOf(e, rest);
    }
  }

  lemma {:induction false} ConnectiveOf(e: Expr, rest: string)
    requires (e.And? || e.Or?) && Printable(e, true) && EndsLeaf(rest)
    ensures PrimaryMisses(ExprPrimary(ToSql(e) + rest), e, rest)
    decreases e, 0
  {
    var word := if e.And? then "AND" else "OR";
    var right := ToSql(e.right) + (")" + rest);
    var s := ToSql(e.left) + (" " + (word + (" " + right)));
    ParenText(e, word, rest);
    ClosedRead(rest);
    NegatedOf(e.right, ")" + rest);
    BetweenEnds(word, right);
    NegatedOf(e.left, " " + (word + (" " + right)));
    if e.And? {
      AndInsideMisses(s, e.left, e.right, rest, right);
    } else {
      OrInsideMisses(s, e.left, e.right, rest, right);
    }
    ParenMisses(s, e, rest);
  }

  lemma {:induction false} ComparisonOf(e: Expr, rest: string)
    requires e.Compare? && Printable(e, true) && EndsLeaf(rest)
    ensures ComparisonMisses(ExprNot(ToSql(e) + rest), e, rest)
    decreases e, 2
  {
    var right := ToSql(e.right) + rest;
    var tail := OpText(e.op) + right;
    ComparisonText(e.op, ToSql(e.left), ToSql(e.right), rest);
    OperatorRead(e.op, right);
    PrimaryOf(e.right, false, rest);
    if e.left.Compare? {
      ComparisonOf(e.left, tail);
      AfterComparison(e, ToSql(e.left) + tail, tail, rest);
    } else if e.left.Not? {
      NegatedLeft(e, tail, right, rest);
    } else {
      PrimaryOf(e.left, true, tail);
      OperandNotKeyword(e.left, tail);
      AfterOperand(e, ToSql(e.left) + tail, tail, right, rest);
    }
  }

  lemma {:induction false} NegatedLeft(e: Expr, tail: string, right: string, rest: string)
    requires e.Compare? && e.left.Not? && Printable(e, true) && EndsLeaf(tail)
    requires PrimaryMisses(ExprPrimary(right), e.right, rest)
    requires ReadOperator(SkipSpaces(tail)) == Some(Parsed(e.op, " " + right))
    ensures ComparisonMisses(ExprNot(ToSql(e.left) + tail), e, rest)
    decreases e, 0
  {
    var inner := ToSql(e.left.left) + (")" + tail);
    assert Printable(e.left, true);
    NotText(ToSql(e.left.left), tail);
    ClosedRead(tail);
    WholeOf(e.left.left, ")" + tail);
    AfterNegation(e, inner, tail, right, rest);
  }

  /** Read as an operand of AND. */
  lemma {:induction false} NegatedOf(e: Expr, rest: string)
    requires Printable(e, true) && Ends(rest)
    ensures Misses(ExprNot(ToSql(e) + rest), e, rest)
    decreases e, 3
  {
    if e.Compare? {
      ComparisonOf(e, rest);
    } else if e.Not? {
      NotText(ToSql(e.left), rest);
      ClosedRead(rest);
      WholeOf(e.left, ")" + rest);
      NegationAlone(e.left, ToSql(e.left) + (")" + rest), rest);
    } else {
      PrimaryOf(e, true, rest);
      OperandNotKeyword(e, rest);
      PrimaryAlone(e, ToSql(e) + rest, rest);
    }
  }

  /** Read as an expression: without the shape, the printed text of a tree is not read
      as that tree, whatever follows it. */
  lemma {:induction false} WholeOf(e: Expr, rest: string)
    requires Printable(e, true) && EndsExpr(rest)
    ensures Misses(ExprOr(ToSql(e) + rest), e, rest)
    decreases e, 4
  {
    NegatedOf(e, rest);
    var r := ExprNot(ToSql(e) + rest);
    if r.Ok? {
      ChainsEnd(r.value.value, r.value.rest, rest);
      ChainsEnd(r.value.value, SkipSpaces(r.value.rest), rest);
    }
  }

  // ---- The expression round trip ----

  /** Exactly when printing an expression and parsing it again is the identity: no
      comparison has a comparison or a negation as an operand, names, integers and
      characters are lexical, and no string literal embeds a quote. */
  lemma ExpressionRoundTrip(e: Expr, rest: string)
    requires EndsExpr(rest)
    ensures ExprOr(ToSql(e) + rest) == Ok(Parsed(e, SkipSpaces(rest))) <==> Readable(e, true)
  {
    if Readable(e, true) {
      OrReads(e, rest);
    }
    if ExprOr(ToSql(e) + rest) == Ok(Parsed(e, SkipSpaces(rest))) {
      OrOutput(ToSql(e) + rest);
      QuotesConcat(ToSql(e), rest);
      SkipKeepsQuotes(rest);
      PrintedQuotes(e, true);
      WholeOf(e, rest);
    }
  }
}
