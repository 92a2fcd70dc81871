// The written forms of expressions, with all their freedom: blanks, letter case,
// parentheses, leading zeros. Independently of the parser: a form is a tree that keeps
// what the text spells out, every text function appends what follows, and Fits says
// when the pieces stay apart.

module ExprForms {
  import opened Ast
  import opened Lexer

  // ---- Pieces ----

  predicate Blank(sp: string) { forall i :: 0 <= i < |sp| ==> IsSpace(sp[i]) }

  /** A word and the blanks in front of it. */
  datatype Word = Word(sp: string, text: string)

  function WordThen(w: Word, rest: string): string { w.sp + (w.text + rest) }

  /** The word stands alone. */
  predicate WordFits(w: Word, rest: string) { Blank(w.sp) && IsIdent(w.text) && EndsWord(rest) }

  /** A keyword, in any letter case. */
  predicate KeywordFits(w: Word, kw: string, rest: string) { WordFits(w, rest) && Upper(w.text) == kw }

  /** The first word behind blanks, empty when something else is there. */
  function FirstWord(rest: string): string {
    var t := SkipSpaces(rest);
    t[..WordLength(t)]
  }

  datatype NameForm = Bare(word: Word) | Dotted(alias: Word, before: string, word: Word)

  function NameThen(n: NameForm, rest: string): string {
    match n
    case Bare(word) => WordThen(word, rest)
    case Dotted(alias, before, word) => WordThen(alias, before + ("." + WordThen(word, rest)))
  }

  function NameOf(n: NameForm): string {
    match n
    case Bare(word) => word.text
    case Dotted(alias, _, word) => alias.text + "." + word.text
  }

  /** A bare name must not be followed by a dot, across blanks. */
  predicate NameFits(n: NameForm, rest: string) {
    match n
    case Bare(word) => WordFits(word, rest) && (SkipSpaces(rest) == "" || SkipSpaces(rest)[0] != '.')
    case Dotted(alias, before, word) =>
      WordFits(alias, before + ("." + WordThen(word, rest))) && Blank(before) && WordFits(word, rest)
  }

  function FirstPart(n: NameForm): string {
    match n
    case Bare(word) => word.text
    case Dotted(alias, _, _) => alias.text
  }

  /** A number: optional minus, then digits at once. */
  datatype NumberForm = NumberForm(sp: string, negative: bool, digits: string)

  function NumberThen(n: NumberForm, rest: string): string {
    n.sp + ((if n.negative then "-" else "") + (n.digits + rest))
  }

  /** Decimal, most significant digit first. */
  function ValueOf(digits: string): int {
    if digits == "" then 0
    else 10 * ValueOf(digits[..|digits| - 1]) + (digits[|digits| - 1] as int - '0' as int)
  }

  /** Any number of leading zeros, and a magnitude of at most 63 bits. */
  predicate NumberFits(n: NumberForm, rest: string) {
    && Blank(n.sp) && n.digits != "" && AllDigits(n.digits) && ValueOf(n.digits) < 0x8000_0000_0000_0000
    && (rest == "" || !IsDigit(rest[0]))
  }

  function NumberOf(n: NumberForm): int { if n.negative then -ValueOf(n.digits) else ValueOf(n.digits) }

  // ---- Expressions ----

  datatype ExprForm =
    | NameTerm(name: NameForm)
    | NumberTerm(number: NumberForm)
    | TextTerm(sp: string, text: string)
    | Parens(sp: string, inner: ExprForm, close: string)
    | Comparison(left: ExprForm, sp: string, op: CmpOp, right: ExprForm)
    | Negated(word: Word, operand: ExprForm)
    | Both(left: ExprForm, word: Word, right: ExprForm)
    | Either(left: ExprForm, word: Word, right: ExprForm)

  function Symbol(op: CmpOp): string {
    match op
    case Equal => "="
    case NotEqual => "!="
    case GreaterThan => ">"
    case LessThan => "<"
    case GreaterEqual => ">="
    case LessEqual => "<="
  }

  function ExprThen(e: ExprForm, rest: string): string {
    match e
    case NameTerm(name) => NameThen(name, rest)
    case NumberTerm(number) => NumberThen(number, rest)
    case TextTerm(sp, text) => sp + ("'" + (DoubleQuotes(text) + ("'" + rest)))
    case Parens(sp, inner, close) => sp + ("(" + ExprThen(inner, close + (")" + rest)))
    case Comparison(l, sp, op, r) => ExprThen(l, sp + (Symbol(op) + ExprThen(r, rest)))
    case Negated(word, x) => WordThen(word, ExprThen(x, rest))
    case Both(l, word, r) => ExprThen(l, WordThen(word, ExprThen(r, rest)))
    case Either(l, word, r) => ExprThen(l, WordThen(word, ExprThen(r, rest)))
  }

  /** NOT binds tighter than AND, AND tighter than OR, both to the left; comparisons
      take single terms. Terms are at level 0, comparisons at 1, NOT at 2, AND at 3 and
      OR at 4. */
  predicate AtLevel(e: ExprForm, level: nat) {
    match e
    case NameTerm(_) => true
    case NumberTerm(_) => true
    case TextTerm(_, _) => true
    case Parens(_, inner, _) => AtLevel(inner, 4)
    case Comparison(l, _, _, r) => level >= 1 && AtLevel(l, 0) && AtLevel(r, 0)
    case Negated(_, x) => level >= 2 && AtLevel(x, 2)
    case Both(l, _, r) => level >= 3 && AtLevel(l, 3) && AtLevel(r, 2)
    case Either(l, _, r) => level >= 4 && AtLevel(l, 4) && AtLevel(r, 3)
  }

  /** The tree a form stands for. */
  function TreeOf(e: ExprForm): Expr {
    match e
    case NameTerm(name) => ColumnRef(NameOf(name))
    case NumberTerm(number) => IntLiteral(NumberOf(number))
    case TextTerm(_, text) => StringLiteral(text)
    case Parens(_, inner, _) => TreeOf(inner)
    case Comparison(l, _, op, r) => Compare(op, TreeOf(l), TreeOf(r))
    case Negated(_, x) => Not(TreeOf(x))
    case Both(l, _, r) => And(TreeOf(l), TreeOf(r))
    case Either(l, _, r) => Or(TreeOf(l), TreeOf(r))
  }

  /** The form starts with a name that would be read as the keyword NOT. */
  predicate StartsNot(e: ExprForm) {
    match e
    case NameTerm(name) => Upper(FirstPart(name)) == "NOT"
    case Comparison(l, _, _, _) => StartsNot(l)
    case Both(l, _, _) => StartsNot(l)
    case Either(l, _, _) => StartsNot(l)
    case _ => false
  }

  /** The pieces are well-formed and stay apart when rest follows. */
  predicate Fits(e: ExprForm, rest: string) {
    match e
    case NameTerm(name) => NameFits(name, rest)
    case NumberTerm(number) => NumberFits(number, rest)
    case TextTerm(sp, text) => Blank(sp) && AllAscii(text) && (rest == "" || rest[0] != '\'')
    case Parens(sp, inner, close) => Blank(sp) && Blank(close) && !StartsNot(inner) && Fits(inner, close + (")" + rest))
    case Comparison(l, sp, op, r) =>
      Blank(sp) && Fits(l, sp + (Symbol(op) + ExprThen(r, rest))) && Fits(r, rest)
    case Negated(word, x) => KeywordFits(word, "NOT", ExprThen(x, rest)) && !StartsNot(x) && Fits(x, rest)
    case Both(l, word, r) =>
      && KeywordFits(word, "AND", ExprThen(r, rest)) && !StartsNot(r)
      && Fits(l, WordThen(word, ExprThen(r, rest))) && Fits(r, rest)
    case Either(l, word, r) =>
      && KeywordFits(word, "OR", ExprThen(r, rest)) && !StartsNot(r)
      && Fits(l, WordThen(word, ExprThen(r, rest))) && Fits(r, rest)
  }

  predicate StartsOperator(t: string) {
    t != "" && (t[0] == '=' || t[0] == '<' || t[0] == '>' || (t[0] == '!' && |t| > 1 && t[1] == '='))
  }

  /** The form ends with a term that an operator could follow. */
  predicate OpenEnd(e: ExprForm) {
    match e
    case Comparison(_, _, _, _) => false
    case Negated(_, x) => OpenEnd(x)
    case Both(_, _, r) => OpenEnd(r)
    case Either(_, _, r) => OpenEnd(r)
    case _ => true
  }

  /** Nothing that follows continues the expression. */
  predicate Closed(e: ExprForm, rest: string) { OpenEnd(e) ==> !StartsOperator(SkipSpaces(rest)) }

  /** A whole expression in front of rest. */
  predicate WholeFits(e: ExprForm, rest: string) {
    && AtLevel(e, 4) && Fits(e, rest) && !StartsNot(e) && Closed(e, rest)
    && Upper(FirstWord(rest)) != "AND" && Upper(FirstWord(rest)) != "OR"
  }
}
