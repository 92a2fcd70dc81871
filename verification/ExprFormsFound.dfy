// Whatever text the parser reads as an expression is a written form of it.

module ExprFormsFound {
  import opened Common
  import opened Ast
  import opened Lexer
  import opened Grammar
  import opened ExprForms
  import opened ExprFormsRead

  // ---- Pieces ----

  lemma {:induction false} SkipSplit(s: string)
    ensures |SkipSpaces(s)| <= |s| && s[|s| - |SkipSpaces(s)|..] == SkipSpaces(s)
    ensures Blank(s[..|s| - |SkipSpaces(s)|])
  {
    if s != "" && IsSpace(s[0]) {
      SkipSplit(s[1..]);
      var k := |s| - |SkipSpaces(s)|;
      assert s[..k] == [s[0]] + s[1..][..k - 1];
      assert s[k..] == s[1..][k - 1..];
    }
  }

  /** The blanks in front of a text. */
  function Gap(s: string): string { s[..|s| - |SkipSpaces(s)|] }

  lemma Halves(s: string, k: nat)
    requires k <= |s|
    ensures s == s[..k] + s[k..]
  {
  }

  lemma GapSplit(s: string)
    ensures Blank(Gap(s)) && s == Gap(s) + SkipSpaces(s)
  {
    SkipSplit(s);
    Halves(s, |s| - |SkipSpaces(s)|);
  }

  lemma GapsJoin(gap: string, s: string)
    requires Blank(gap)
    ensures Blank(gap + Gap(s)) && gap + s == (gap + Gap(s)) + SkipSpaces(s)
    ensures SkipSpaces(gap + s) == SkipSpaces(s)
  {
    GapSplit(s);
    SkipBlank(gap, s);
  }

  lemma NothingBefore(s: string)
    ensures "" + s == s && Blank("")
  {
  }

  lemma WordMade(sp: string, t: string, n: nat)
    requires n <= |t|
    ensures WordThen(Word(sp, t[..n]), t[n..]) == sp + t
  {
    Halves(t, n);
  }

  lemma IdentParts(s: string)
    requires ReadIdent(s).Ok?
    ensures
      var t := SkipSpaces(s);
      && IsIdent(t[..WordLength(t)]) && EndsWord(t[WordLength(t)..])
      && ReadIdent(s) == Ok(Parsed(t[..WordLength(t)], t[WordLength(t)..]))
  {
  }

  /** A word behind two gaps. */
  lemma WordFound(gap: string, s: string) returns (w: Word)
    requires Blank(gap) && ReadIdent(s).Ok?
    ensures w.text == ReadIdent(s).value.value && WordFits(w, ReadIdent(s).value.rest)
    ensures gap + s == WordThen(w, ReadIdent(s).value.rest)
  {
    GapsJoin(gap, s);
    IdentParts(s);
    var t := SkipSpaces(s);
    WordMade(gap + Gap(s), t, WordLength(t));
    w := Word(gap + Gap(s), t[..WordLength(t)]);
  }

  lemma LettersOnly(w: string, kw: string)
    requires Upper(w) == kw && Capitals(kw)
    ensures IsIdent(w)
  {
    forall i | 0 <= i < |w|
      ensures IsAlpha(w[i])
    {
      assert Upper(w)[i] == UpperChar(w[i]);
    }
  }

  predicate Capitals(kw: string) { kw != "" && forall i :: 0 <= i < |kw| ==> 'A' <= kw[i] <= 'Z' }

  lemma KeywordText(s: string, kw: string) returns (text: string)
    requires TryKeyword(kw, s).value && Capitals(kw)
    ensures IsIdent(text) && Upper(text) == kw && EndsWord(TryKeyword(kw, s).rest)
    ensures SkipSpaces(s) == text + TryKeyword(kw, s).rest
  {
    var t := SkipSpaces(s);
    text := t[..WordLength(t)];
    LettersOnly(text, kw);
  }

  lemma KeywordFound(gap: string, s: string, kw: string) returns (w: Word)
    requires Blank(gap) && TryKeyword(kw, s).value && Capitals(kw)
    ensures KeywordFits(w, kw, TryKeyword(kw, s).rest) && gap + s == WordThen(w, TryKeyword(kw, s).rest)
  {
    GapsJoin(gap, s);
    var text := KeywordText(s, kw);
    w := Word(gap + Gap(s), text);
  }

  lemma BareFound(first: Word, rest: string)
    requires WordFits(first, rest) && (SkipSpaces(rest) == "" || SkipSpaces(rest)[0] != '.')
    ensures Blank(Gap(rest)) && Gap(rest) + SkipSpaces(rest) == rest && NameFits(Bare(first), rest)
  {
    GapSplit(rest);
  }

  lemma DottedFound(first: Word, rest: string) returns (n: NameForm)
    requires WordFits(first, rest) && SkipSpaces(rest) != "" && SkipSpaces(rest)[0] == '.'
    requires ReadIdent(SkipSpaces(rest)[1..]).Ok?
    ensures
      var second := ReadIdent(SkipSpaces(rest)[1..]).value;
      && NameOf(n) == first.text + "." + second.value && NameFits(n, second.rest)
      && WordThen(first, rest) == NameThen(n, second.rest)
  {
    var t := SkipSpaces(rest);
    GapSplit(rest);
    NothingBefore(t[1..]);
    var second := WordFound("", t[1..]);
    assert t == "." + t[1..];
    n := Dotted(first, Gap(rest), second);
  }

  lemma NameFound(gap: string, s: string) returns (n: NameForm, after: string)
    requires Blank(gap) && ReadName(s).Ok?
    ensures Blank(after) && NameOf(n) == ReadName(s).value.value
    ensures NameFits(n, after + ReadName(s).value.rest) && gap + s == NameThen(n, after + ReadName(s).value.rest)
  {
    var first := WordFound(gap, s);
    var rest := ReadIdent(s).value.rest;
    var t := SkipSpaces(rest);
    if t == "" || t[0] != '.' {
      BareFound(first, rest);
      n, after := Bare(first), Gap(rest);
    } else {
      n := DottedFound(first, rest);
      after := "";
      NothingBefore(ReadName(s).value.rest);
    }
  }

  lemma DigitsFound(neg: bool, s: string)
    requires ReadDigits(neg, s).Ok?
    ensures
      var n := DigitsLength(s);
      && s == s[..n] + s[n..] && ReadDigits(neg, s).value.rest == s[n..]
      && s[..n] != "" && AllDigits(s[..n]) && ValueOf(s[..n]) < 0x8000_0000_0000_0000
      && ReadDigits(neg, s).value.value == if neg then -ValueOf(s[..n]) else ValueOf(s[..n])
  {
    ValueSame(s[..DigitsLength(s)]);
  }

  lemma NumberMade(sp: string, negative: bool, t: string, k: nat)
    requires negative ==> t != "" && t[0] == '-'
    requires k <= |t| - if negative then 1 else 0
    ensures
      var signless := if negative then t[1..] else t;
      NumberThen(NumberForm(sp, negative, signless[..k]), signless[k..]) == sp + t
  {
    var signless := if negative then t[1..] else t;
    Halves(signless, k);
    assert t == (if negative then "-" else "") + signless;
  }

  lemma NumberFound(gap: string, s: string) returns (n: NumberForm)
    requires Blank(gap) && ReadInt(s).Ok?
    ensures NumberFits(n, ReadInt(s).value.rest) && NumberOf(n) == ReadInt(s).value.value
    ensures gap + s == NumberThen(n, ReadInt(s).value.rest)
  {
    GapsJoin(gap, s);
    var t := SkipSpaces(s);
    var negative := t != "" && t[0] == '-';
    var signless := if negative then t[1..] else t;
    DigitsFound(negative, signless);
    var k := DigitsLength(signless);
    NumberMade(gap + Gap(s), negative, t, k);
    n := NumberForm(gap + Gap(s), negative, signless[..k]);
  }

  lemma DoubledQuote(text: string, rest: string)
    ensures DoubleQuotes("'" + text) + rest == "''" + (DoubleQuotes(text) + rest)
  {
    assert ("'" + text)[1..] == text;
  }

  lemma UndoubledChar(c: char, text: string, rest: string)
    requires c != '\''
    ensures DoubleQuotes([c] + text) + rest == [c] + (DoubleQuotes(text) + rest)
  {
    assert ([c] + text)[1..] == text;
  }

  lemma {:induction false} TextFound(s: string)
    requires ReadQuoted(s).Ok?
    ensures
      var text, rest := ReadQuoted(s).value.value, ReadQuoted(s).value.rest;
      s == DoubleQuotes(text) + ("'" + rest) && AllAscii(text) && (rest == "" || rest[0] != '\'')
  {
    if s[0] == '\'' {
      if |s| > 1 && s[1] == '\'' {
        TextFound(s[2..]);
        var r := ReadQuoted(s[2..]).value;
        DoubledQuote(r.value, "'" + r.rest);
        assert s == "''" + s[2..];
      } else {
        assert s == "'" + s[1..] && DoubleQuotes("") == "";
      }
    } else {
      TextFound(s[1..]);
      var r := ReadQuoted(s[1..]).value;
      UndoubledChar(s[0], r.value, "'" + r.rest);
      assert s == [s[0]] + s[1..];
    }
  }

  // ---- Expressions ----

  /** The text is a form of the tree at a level, in front of rest. */
  predicate Found(text: string, e: ExprForm, level: nat, tree: Expr, rest: string) {
    && text == ExprThen(e, rest) && AtLevel(e, level) && TreeOf(e) == tree
    && Fits(e, rest) && (level >= 1 ==> Closed(e, rest)) && (level >= 2 ==> !StartsNot(e))
  }

  lemma NameTermFound(s: string) returns (e: ExprForm, gap: string)
    requires ReadName(s).Ok?
    ensures Blank(gap) && Found(s, e, 0, ColumnRef(ReadName(s).value.value), gap + ReadName(s).value.rest)
  {
    var n, after := NameFound("", s);
    NothingBefore(s);
    e, gap := NameTerm(n), after;
  }

  lemma NumberTermFound(s: string) returns (e: ExprForm)
    requires ReadInt(s).Ok?
    ensures Found(s, e, 0, IntLiteral(ReadInt(s).value.value), ReadInt(s).value.rest)
  {
    var n := NumberFound("", s);
    NothingBefore(s);
    e := NumberTerm(n);
  }

  lemma TextTermFound(s: string) returns (e: ExprForm)
    requires SkipSpaces(s) != "" && SkipSpaces(s)[0] == '\'' && ReadQuoted(SkipSpaces(s)[1..]).Ok?
    ensures
      var r := ReadQuoted(SkipSpaces(s)[1..]).value;
      Found(s, e, 0, StringLiteral(r.value), r.rest)
  {
    var t := SkipSpaces(s);
    GapSplit(s);
    TextFound(t[1..]);
    assert t == "'" + t[1..];
    e := TextTerm(Gap(s), ReadQuoted(t[1..]).value.value);
  }

  lemma ParensFound(s: string, inner: ExprForm, gap: string, tree: Expr, rest: string) returns (e: ExprForm)
    requires SkipSpaces(s) != "" && SkipSpaces(s)[0] == '(' && Blank(gap)
    requires Found(SkipSpaces(s)[1..], inner, 4, tree, gap + rest) && ExpectChar(')', rest).Ok?
    ensures Found(s, e, 0, tree, ExpectChar(')', rest).value)
  {
    var t, u := SkipSpaces(s), SkipSpaces(rest);
    GapSplit(s);
    GapsJoin(gap, rest);
    assert t == "(" + t[1..] && u == ")" + u[1..];
    e := Parens(Gap(s), inner, gap + Gap(rest));
  }

  lemma {:induction false} TermFound(s: string) returns (e: ExprForm, gap: string)
    requires ExprPrimary(s).Ok?
    ensures Blank(gap) && Found(s, e, 0, ExprPrimary(s).value.value, gap + ExprPrimary(s).value.rest)
    decreases |s|, 0
  {
    var t, rest := SkipSpaces(s), ExprPrimary(s).value.rest;
    NothingBefore(rest);
    if t[0] == '(' {
      var inner, after := OrFound(t[1..]);
      var read := ExprOr(t[1..]).value;
      e := ParensFound(s, inner, after, read.value, read.rest);
      gap := "";
    } else if IsDigit(t[0]) || t[0] == '-' {
      assert ReadInt(s) == ReadInt(t);
      e := NumberTermFound(s);
      gap := "";
    } else if t[0] == '\'' {
      e := TextTermFound(s);
      gap := "";
    } else {
      assert ReadName(s) == ReadName(t);
      e, gap := NameTermFound(s);
    }
  }

  /** The text of the operator ReadOperator found. */
  lemma OperatorFound(t: string)
    requires ReadOperator(t).Some?
    ensures t == Symbol(ReadOperator(t).value.value) + ReadOperator(t).value.rest
  {
  }

  lemma ComparisonJoined(s: string, l: ExprForm, gap: string, left: Expr, t: string, op: CmpOp, r: ExprForm,
                         right: Expr, rest: string) returns (e: ExprForm)
    requires Blank(gap) && Found(s, l, 0, left, gap + t) && SkipSpaces(t) == Symbol(op) + ExprThen(r, rest)
    requires AtLevel(r, 0) && TreeOf(r) == right && Fits(r, rest)
    ensures Found(s, e, 1, Compare(op, left, right), rest)
  {
    GapsJoin(gap, t);
    e := Comparison(l, gap + Gap(t), op, r);
  }

  lemma {:induction false} ComparisonFound(s: string) returns (e: ExprForm, gap: string)
    requires ExprComparison(s).Ok?
    ensures Blank(gap) && Found(s, e, 1, ExprComparison(s).value.value, gap + ExprComparison(s).value.rest)
    decreases |s|, 1
  {
    var l, before := TermFound(s);
    var left := ExprPrimary(s).value;
    var t := SkipSpaces(left.rest);
    GapsJoin(before, left.rest);
    OperatorByStart(t);
    if ReadOperator(t).None? {
      e, gap := l, before + Gap(left.rest);
      SkipBlank(gap, t);
      TermClosed(l, gap + t);
    } else {
      var op := ReadOperator(t).value;
      OperatorFound(t);
      var r, after := TermFound(op.rest);
      var right := ExprPrimary(op.rest).value;
      e := ComparisonJoined(s, l, before, left.value, left.rest, op.value, r, right.value, after + right.rest);
      gap := after;
    }
  }

  lemma TermClosed(e: ExprForm, rest: string)
    requires AtLevel(e, 0) && !StartsOperator(SkipSpaces(rest))
    ensures AtLevel(e, 1) && Closed(e, rest)
  {
  }

  lemma {:induction false} LevelUp(e: ExprForm, a: nat, b: nat)
    requires AtLevel(e, a) && a <= b
    ensures AtLevel(e, b)
  {
  }

  /** A term that would be read as NOT does not get that far. */
  lemma {:induction false} NoNotHere(e: ExprForm, rest: string)
    requires AtLevel(e, 1) && Fits(e, rest) && !TryKeyword("NOT", ExprThen(e, rest)).value
    ensures !StartsNot(e)
  {
    match e
    case NameTerm(name) =>
      NameStarts(name, rest);
      KeywordByWord("NOT", NameThen(name, rest));
    case Comparison(l, sp, op, r) => NoNotHere(l, sp + (Symbol(op) + ExprThen(r, rest)));
    case _ =>
  }

  lemma NegatedFound(s: string, word: Word, k: string, x: ExprForm, tree: Expr, rest: string)
    requires s == WordThen(word, k) && KeywordFits(word, "NOT", k) && Found(k, x, 2, tree, rest)
    ensures Found(s, Negated(word, x), 2, Not(tree), rest)
  {
  }

  lemma {:induction false} NotFound(s: string) returns (e: ExprForm, gap: string)
    requires ExprNot(s).Ok?
    ensures Blank(gap) && Found(s, e, 2, ExprNot(s).value.value, gap + ExprNot(s).value.rest)
    decreases |s|, 2, 1
  {
    var k := TryKeyword("NOT", s);
    NothingBefore(s);
    if k.value {
      var word := KeywordFound("", s, "NOT");
      var x, after := NotFound(k.rest);
      NegatedFound(s, word, k.rest, x, ExprNot(k.rest).value.value, after + ExprNot(k.rest).value.rest);
      e, gap := Negated(word, x), after;
    } else {
      e, gap := PlainFound(s);
    }
  }

  lemma {:induction false} PlainFound(s: string) returns (e: ExprForm, gap: string)
    requires ExprNot(s).Ok? && !TryKeyword("NOT", s).value
    ensures Blank(gap) && Found(s, e, 2, ExprNot(s).value.value, gap + ExprNot(s).value.rest)
    decreases |s|, 2, 0
  {
    ComparisonSame(SkipSpaces(s), s);
    e, gap := ComparisonFound(s);
    NoNotHere(e, gap + ExprNot(s).value.rest);
    LevelUp(e, 1, 2);
  }

  lemma BothFound(text: string, l: ExprForm, left: Expr, word: Word, k: string, r: ExprForm, right: Expr, rest: string)
    requires Found(text, l, 3, left, WordThen(word, k)) && KeywordFits(word, "AND", k) && Found(k, r, 2, right, rest)
    ensures Found(text, Both(l, word, r), 3, And(left, right), rest)
  {
  }

  lemma EitherFound(text: string, l: ExprForm, left: Expr, word: Word, k: string, r: ExprForm, right: Expr,
                    rest: string)
    requires Found(text, l, 4, left, WordThen(word, k)) && KeywordFits(word, "OR", k) && Found(k, r, 3, right, rest)
    ensures Found(text, Either(l, word, r), 4, Or(left, right), rest)
  {
  }

  /** Where a loop stops, what follows is the same behind one gap. */
  lemma GapEnds(gap: string, s: string, kw: string)
    requires Blank(gap)
    ensures
      var after := gap + Gap(s);
      && Blank(after) && gap + s == after + SkipSpaces(s)
      && FirstWord(after + SkipSpaces(s)) == FirstWord(gap + s) == FirstWord(s)
    ensures TryKeyword(kw, s).value <==> Upper(FirstWord(s)) == kw
    ensures !TryKeyword(kw, s).value ==> TryKeyword(kw, s).rest == SkipSpaces(s)
  {
    GapsJoin(gap, s);
    KeywordByWord(kw, s);
  }

  /** The AND loop: with a form of the left operand found, one of the whole. */
  lemma {:induction false} AndTailFound(text: string, l: ExprForm, left: Expr, gap: string, s: string)
    returns (e: ExprForm, after: string)
    requires Blank(gap) && Found(text, l, 3, left, gap + s) && AndTail(left, s).Ok?
    ensures Blank(after) && Found(text, e, 3, AndTail(left, s).value.value, after + AndTail(left, s).value.rest)
    ensures Upper(FirstWord(after + AndTail(left, s).value.rest)) != "AND"
    decreases |s|, 2
  {
    var k := TryKeyword("AND", s);
    GapEnds(gap, s, "AND");
    if k.value {
      var word := KeywordFound(gap, s, "AND");
      var r, between := NotFound(k.rest);
      var right := ExprNot(k.rest).value;
      BothFound(text, l, left, word, k.rest, r, right.value, between + right.rest);
      e, after := AndTailFound(text, Both(l, word, r), And(left, right.value), between, right.rest);
    } else {
      e, after := l, gap + Gap(s);
    }
  }

  lemma {:induction false} AndFound(s: string) returns (e: ExprForm, gap: string)
    requires ExprAnd(s).Ok?
    ensures Blank(gap) && Found(s, e, 3, ExprAnd(s).value.value, gap + ExprAnd(s).value.rest)
    ensures Upper(FirstWord(gap + ExprAnd(s).value.rest)) != "AND"
    decreases |s|, 3
  {
    var l, before := NotFound(s);
    var left := ExprNot(s).value;
    LevelUp(l, 2, 3);
    e, gap := AndTailFound(s, l, left.value, before, left.rest);
  }

  lemma {:induction false} OrTailFound(text: string, l: ExprForm, left: Expr, gap: string, s: string)
    returns (e: ExprForm, after: string)
    requires Blank(gap) && Found(text, l, 4, left, gap + s) && OrTail(left, s).Ok?
    requires Upper(FirstWord(gap + s)) != "AND"
    ensures Blank(after) && Found(text, e, 4, OrTail(left, s).value.value, after + OrTail(left, s).value.rest)
    ensures Upper(FirstWord(after + OrTail(left, s).value.rest)) != "AND"
    ensures Upper(FirstWord(after + OrTail(left, s).value.rest)) != "OR"
    decreases |s|, 4
  {
    var k := TryKeyword("OR", s);
    GapEnds(gap, s, "OR");
    if k.value {
      var word := KeywordFound(gap, s, "OR");
      var r, between := AndFound(k.rest);
      var right := ExprAnd(k.rest).value;
      EitherFound(text, l, left, word, k.rest, r, right.value, between + right.rest);
      e, after := OrTailFound(text, Either(l, word, r), Or(left, right.value), between, right.rest);
    } else {
      e, after := l, gap + Gap(s);
    }
  }

  /** Whatever is read as an expression is a whole written form of its tree. */
  lemma {:induction false} OrFound(s: string) returns (e: ExprForm, gap: string)
    requires ExprOr(s).Ok?
    ensures Blank(gap) && Found(s, e, 4, ExprOr(s).value.value, gap + ExprOr(s).value.rest)
    ensures WholeFits(e, gap + ExprOr(s).value.rest)
    decreases |s|, 5
  {
    var l, before := AndFound(s);
    var left := ExprAnd(s).value;
    LevelUp(l, 3, 4);
    e, gap := OrTailFound(s, l, left.value, before, left.rest);
  }
}
