// The parser reads every written form of an expression as its tree.

module ExprFormsRead {
  import opened Common
  import opened Ast
  import opened Lexer
  import opened Grammar
  import opened ExprForms

  /** Texts that differ in leading blanks only. */
  predicate SameText(s: string, t: string) { SkipSpaces(s) == SkipSpaces(t) }

  /** The result is that value, and what is left is rest up to blanks. */
  predicate Gives<T(==)>(r: Result<Parsed<T>>, value: T, rest: string) {
    r.Ok? && r.value.value == value && SameText(r.value.rest, rest)
  }

  // ---- Pieces ----

  lemma {:induction false} SkipBlank(sp: string, t: string)
    requires Blank(sp)
    ensures SkipSpaces(sp + t) == SkipSpaces(t)
  {
    if sp == "" {
      assert sp + t == t;
    } else {
      assert (sp + t)[1..] == sp[1..] + t;
      SkipBlank(sp[1..], t);
    }
  }

  lemma WordSplit(w: string, rest: string)
    requires IsIdent(w) && EndsWord(rest)
    ensures WordLength(w + rest) == |w| && (w + rest)[..|w|] == w && (w + rest)[|w|..] == rest
    ensures SkipSpaces(w + rest) == w + rest && w + rest != "" && StartsIdent(w + rest)
  {
    WordRead(w, rest);
    assert (w + rest)[0] == w[0];
  }

  /** A word that stands alone: as an identifier and as a keyword. */
  lemma WordReads(w: Word, rest: string, kw: string)
    requires WordFits(w, rest)
    ensures ReadIdent(WordThen(w, rest)) == Ok(Parsed(w.text, rest))
    ensures TryKeyword(kw, WordThen(w, rest)) ==
      if Upper(w.text) == kw then Parsed(true, rest) else Parsed(false, w.text + rest)
    ensures SkipSpaces(WordThen(w, rest)) == w.text + rest && StartsIdent(w.text + rest)
    ensures FirstWord(WordThen(w, rest)) == w.text
  {
    SkipBlank(w.sp, w.text + rest);
    WordSplit(w.text, rest);
  }

  lemma KeywordSame(kw: string, s: string, t: string)
    requires SameText(s, t)
    ensures TryKeyword(kw, s) == TryKeyword(kw, t)
  {
  }

  /** The first word behind blanks decides about a keyword. */
  lemma KeywordByWord(kw: string, s: string)
    ensures TryKeyword(kw, s).value <==> Upper(FirstWord(s)) == kw
    ensures !TryKeyword(kw, s).value ==> TryKeyword(kw, s).rest == SkipSpaces(s)
  {
  }

  lemma DotReads(first: string, before: string, word: Word, rest: string)
    requires Blank(before) && WordFits(word, rest)
    ensures ReadQualifier(first, before + ("." + WordThen(word, rest))) == Ok(Parsed(first + "." + word.text, rest))
  {
    var dotted := "." + WordThen(word, rest);
    SkipBlank(before, dotted);
    assert dotted[1..] == WordThen(word, rest);
    WordReads(word, rest, "");
  }

  lemma NameReads(n: NameForm, rest: string)
    requires NameFits(n, rest)
    ensures Gives(ReadName(NameThen(n, rest)), NameOf(n), rest)
  {
    match n
    case Bare(word) => WordReads(word, rest, "");
    case Dotted(alias, before, word) =>
      WordReads(alias, before + ("." + WordThen(word, rest)), "");
      DotReads(alias.text, before, word, rest);
  }

  lemma {:induction false} ValueSame(digits: string)
    requires AllDigits(digits)
    ensures ValueOf(digits) == DigitsValue(digits)
  {
    if digits != "" {
      ValueSame(digits[..|digits| - 1]);
    }
  }

  lemma NumberReads(n: NumberForm, rest: string)
    requires NumberFits(n, rest)
    ensures ReadInt(NumberThen(n, rest)) == Ok(Parsed(NumberOf(n), rest))
  {
    var signed := (if n.negative then "-" else "") + (n.digits + rest);
    SkipBlank(n.sp, signed);
    DigitsRead(n.digits, rest);
    ValueSame(n.digits);
    assert (n.digits + rest)[0] == n.digits[0];
    if n.negative {
      assert signed[1..] == n.digits + rest;
    } else {
      assert signed == n.digits + rest;
    }
  }

  lemma PrimarySame(s: string, t: string)
    requires SameText(s, t)
    ensures ExprPrimary(s) == ExprPrimary(t)
  {
  }

  // ---- Terms ----

  lemma NameStarts(n: NameForm, rest: string)
    requires NameFits(n, rest)
    ensures StartsIdent(SkipSpaces(NameThen(n, rest)))
    ensures FirstWord(NameThen(n, rest)) == FirstPart(n)
  {
    match n
    case Bare(word) => WordReads(word, rest, "");
    case Dotted(alias, before, word) => WordReads(alias, before + ("." + WordThen(word, rest)), "");
  }

  lemma NameTermReads(n: NameForm, rest: string)
    requires NameFits(n, rest)
    ensures Gives(ExprPrimary(NameThen(n, rest)), ColumnRef(NameOf(n)), rest)
  {
    NameReads(n, rest);
    NameStarts(n, rest);
    var t := SkipSpaces(NameThen(n, rest));
    assert ReadName(t) == ReadName(NameThen(n, rest));
  }

  lemma NumberTermReads(n: NumberForm, rest: string)
    requires NumberFits(n, rest)
    ensures Gives(ExprPrimary(NumberThen(n, rest)), IntLiteral(NumberOf(n)), rest)
  {
    NumberReads(n, rest);
    var signed := (if n.negative then "-" else "") + (n.digits + rest);
    SkipBlank(n.sp, signed);
    assert signed[0] == if n.negative then '-' else n.digits[0];
    assert ReadInt(SkipSpaces(NumberThen(n, rest))) == ReadInt(NumberThen(n, rest));
  }

  lemma TextReads(text: string, rest: string)
    requires AllAscii(text) && (rest == "" || rest[0] != '\'')
    ensures ReadQuoted(DoubleQuotes(text) + ("'" + rest)) == Ok(Parsed(text, rest))
  {
    assert DoubleQuotes(text) + ("'" + rest) == DoubleQuotes(text) + "'" + rest;
    QuotedRead(text, rest);
  }

  lemma QuotePrimary(body: string, text: string, rest: string)
    requires ReadQuoted(body) == Ok(Parsed(text, rest))
    ensures ExprPrimary("'" + body) == Ok(Parsed(StringLiteral(text), rest))
  {
    assert ("'" + body)[1..] == body;
  }

  lemma TextTermReads(sp: string, text: string, rest: string)
    requires Blank(sp) && AllAscii(text) && (rest == "" || rest[0] != '\'')
    ensures Gives(ExprPrimary(sp + ("'" + (DoubleQuotes(text) + ("'" + rest)))), StringLiteral(text), rest)
  {
    var quoted := "'" + (DoubleQuotes(text) + ("'" + rest));
    TextReads(text, rest);
    QuotePrimary(DoubleQuotes(text) + ("'" + rest), text, rest);
    SkipBlank(sp, quoted);
    PrimarySame(sp + quoted, quoted);
  }

  lemma ParensRead(sp: string, inner: string, close: string, e: Expr, rest: string)
    requires Blank(sp) && Blank(close) && Gives(ExprOr(inner), e, close + (")" + rest))
    ensures Gives(ExprPrimary(sp + ("(" + inner)), e, rest)
  {
    SkipBlank(sp, "(" + inner);
    SkipBlank(close, ")" + rest);
    assert ("(" + inner)[1..] == inner && (")" + rest)[1..] == rest;
  }

  // ---- What can follow ----

  lemma SymbolReads(op: CmpOp, right: string)
    requires right == "" || right[0] != '='
    ensures ReadOperator(Symbol(op) + right) == Some(Parsed(op, right))
    ensures SkipSpaces(Symbol(op) + right) == Symbol(op) + right
  {
    var symbol, text := Symbol(op), Symbol(op) + right;
    assert text[|symbol|..] == right;
    assert text[0] == symbol[0] && (|symbol| == 2 ==> text[1] == symbol[1]);
    assert |symbol| == 1 && |text| > 1 ==> text[1] == right[0];
  }

  lemma OperatorByStart(t: string)
    ensures ReadOperator(t).Some? <==> StartsOperator(t)
  {
  }

  /** No written form starts with an equality sign. */
  lemma {:induction false} NotEquals(e: ExprForm, rest: string)
    requires Fits(e, rest)
    ensures ExprThen(e, rest) != "" && ExprThen(e, rest)[0] != '='
  {
    match e
    case Comparison(l, sp, op, r) => NotEquals(l, sp + (Symbol(op) + ExprThen(r, rest)));
    case Both(l, word, r) => NotEquals(l, WordThen(word, ExprThen(r, rest)));
    case Either(l, word, r) => NotEquals(l, WordThen(word, ExprThen(r, rest)));
    case NameTerm(name) => FirstOfWord(if name.Bare? then name.word else name.alias);
    case Negated(word, _) => FirstOfWord(word);
    case NumberTerm(number) => FirstBlank(number.sp);
    case TextTerm(sp, _) => FirstBlank(sp);
    case Parens(sp, _, _) => FirstBlank(sp);
  }

  lemma FirstBlank(sp: string)
    requires Blank(sp)
    ensures sp != "" ==> sp[0] != '='
  {
  }

  lemma FirstOfWord(w: Word)
    requires Blank(w.sp) && IsIdent(w.text)
    ensures forall rest :: WordThen(w, rest) != "" && WordThen(w, rest)[0] != '='
  {
    forall rest
      ensures WordThen(w, rest) != "" && WordThen(w, rest)[0] != '='
    {
      assert WordThen(w, rest)[0] == if w.sp == "" then w.text[0] else w.sp[0];
    }
  }

  /** Where the keyword NOT is looked for, only NOT itself is found. */
  lemma {:induction false} NotAtStart(e: ExprForm, rest: string)
    requires Fits(e, rest) && !StartsNot(e)
    ensures TryKeyword("NOT", ExprThen(e, rest)).value ==> !AtLevel(e, 1)
  {
    match e
    case NameTerm(name) =>
      NameStarts(name, rest);
      KeywordByWord("NOT", NameThen(name, rest));
    case NumberTerm(n) =>
      var signed := (if n.negative then "-" else "") + (n.digits + rest);
      SkipBlank(n.sp, signed);
      assert signed[0] == if n.negative then '-' else n.digits[0];
      NoLetter("NOT", signed);
    case TextTerm(sp, text) =>
      SkipBlank(sp, "'" + (DoubleQuotes(text) + ("'" + rest)));
    case Parens(sp, inner, close) =>
      SkipBlank(sp, "(" + ExprThen(inner, close + (")" + rest)));
    case Comparison(l, sp, op, r) =>
      NotAtStart(l, sp + (Symbol(op) + ExprThen(r, rest)));
    case _ =>
  }

  lemma NoLetter(kw: string, t: string)
    requires t != "" && !IsSpace(t[0]) && !IsAlpha(t[0]) && kw != "" && IsAlpha(kw[0])
    ensures !TryKeyword(kw, t).value
  {
    var word := t[..WordLength(t)];
    if word != "" {
      assert word[0] == t[0] && Upper(word)[0] == t[0];
    }
  }

  // ---- Levels ----

  lemma {:induction false} TermReads(e: ExprForm, rest: string)
    requires AtLevel(e, 0) && Fits(e, rest)
    ensures Gives(ExprPrimary(ExprThen(e, rest)), TreeOf(e), rest)
    decreases e, 0
  {
    match e
    case NameTerm(name) => NameTermReads(name, rest);
    case NumberTerm(number) => NumberTermReads(number, rest);
    case TextTerm(sp, text) => TextTermReads(sp, text, rest);
    case Parens(sp, inner, close) =>
      var after := close + (")" + rest);
      ParenFollows(close, rest);
      WholeReads(inner, after);
      ParensRead(sp, ExprThen(inner, after), close, TreeOf(inner), rest);
  }

  lemma ParenFollows(close: string, rest: string)
    requires Blank(close)
    ensures !StartsOperator(SkipSpaces(close + (")" + rest))) && FirstWord(close + (")" + rest)) == ""
  {
    SkipBlank(close, ")" + rest);
  }

  lemma {:induction false} ComparisonReads(e: ExprForm, rest: string)
    requires AtLevel(e, 1) && Fits(e, rest) && Closed(e, rest)
    ensures Gives(ExprComparison(ExprThen(e, rest)), TreeOf(e), rest)
    decreases e, 1
  {
    if e.Comparison? {
      var right := ExprThen(e.right, rest);
      var tail := e.sp + (Symbol(e.op) + right);
      TermReads(e.left, tail);
      TermReads(e.right, rest);
      NotEquals(e.right, rest);
      SkipBlank(e.sp, Symbol(e.op) + right);
      SymbolReads(e.op, right);
    } else {
      TermReads(e, rest);
      OperatorByStart(SkipSpaces(rest));
    }
  }

  lemma ComparisonSame(s: string, t: string)
    requires SameText(s, t)
    ensures ExprComparison(s) == ExprComparison(t)
  {
    PrimarySame(s, t);
  }

  lemma {:induction false} NotReads(e: ExprForm, rest: string)
    requires AtLevel(e, 2) && Fits(e, rest) && !StartsNot(e) && Closed(e, rest)
    ensures Gives(ExprNot(ExprThen(e, rest)), TreeOf(e), rest)
    decreases e, 2
  {
    if e.Negated? {
      WordReads(e.word, ExprThen(e.operand, rest), "NOT");
      NotReads(e.operand, rest);
    } else {
      NotAtStart(e, rest);
      ComparisonReads(e, rest);
      ComparisonSame(SkipSpaces(ExprThen(e, rest)), ExprThen(e, rest));
    }
  }

  lemma AndSame(left: Expr, s: string, t: string)
    requires SameText(s, t)
    ensures AndTail(left, s) == AndTail(left, t)
  {
  }

  lemma OrSame(left: Expr, s: string, t: string)
    requires SameText(s, t)
    ensures OrTail(left, s) == OrTail(left, t)
  {
  }

  /** What follows a keyword's left operand continues no comparison. */
  lemma KeywordFollows(word: Word, rest: string)
    requires WordFits(word, rest)
    ensures !StartsOperator(SkipSpaces(WordThen(word, rest)))
  {
    WordReads(word, rest, "");
  }

  /** An AND chain is read up to its end, where the loop looks for the next AND. */
  lemma {:induction false} AndReads(e: ExprForm, rest: string)
    requires AtLevel(e, 3) && Fits(e, rest) && !StartsNot(e) && Closed(e, rest)
    ensures ExprAnd(ExprThen(e, rest)) == AndTail(TreeOf(e), rest)
    decreases e, 3
  {
    if e.Both? {
      var right := ExprThen(e.right, rest);
      KeywordFollows(e.word, right);
      AndReads(e.left, WordThen(e.word, right));
      WordReads(e.word, right, "AND");
      NotReads(e.right, rest);
      AndSame(TreeOf(e), ExprNot(right).value.rest, rest);
    } else {
      NotReads(e, rest);
      AndSame(TreeOf(e), ExprNot(ExprThen(e, rest)).value.rest, rest);
    }
  }

  lemma AndEnds(left: Expr, rest: string)
    requires Upper(FirstWord(rest)) != "AND"
    ensures AndTail(left, rest) == Ok(Parsed(left, SkipSpaces(rest)))
  {
    KeywordByWord("AND", rest);
  }

  lemma {:induction false} OrReads(e: ExprForm, rest: string)
    requires AtLevel(e, 4) && Fits(e, rest) && !StartsNot(e) && Closed(e, rest) && Upper(FirstWord(rest)) != "AND"
    ensures ExprOr(ExprThen(e, rest)) == OrTail(TreeOf(e), rest)
    decreases e, 4
  {
    if e.Either? {
      var right := ExprThen(e.right, rest);
      KeywordFollows(e.word, right);
      WordReads(e.word, right, "OR");
      OrReads(e.left, WordThen(e.word, right));
      AndReads(e.right, rest);
      AndEnds(TreeOf(e.right), rest);
      OrSame(TreeOf(e), SkipSpaces(rest), rest);
    } else {
      AndReads(e, rest);
      AndEnds(TreeOf(e), rest);
      OrSame(TreeOf(e), SkipSpaces(rest), rest);
    }
  }

  /** Every written form of an expression is read as its tree. */
  lemma {:induction false} WholeReads(e: ExprForm, rest: string)
    requires WholeFits(e, rest)
    ensures ExprOr(ExprThen(e, rest)) == Ok(Parsed(TreeOf(e), SkipSpaces(rest)))
    decreases e, 5
  {
    OrReads(e, rest);
    KeywordByWord("OR", rest);
  }
}
