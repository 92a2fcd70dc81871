// The written forms of statements: keywords in any letter case, any blanks, INNER, AS
// and ASC written or left out, a semicolon or none.

module StatementForms {
  import opened Common
  import opened Ast
  import opened Lexer
  import opened ExprForms

  function MaybeThen(w: Option<Word>, rest: string): string {
    if w.None? then rest else WordThen(w.value, rest)
  }

  /** The keyword, or something else than the keyword. */
  predicate MaybeFits(w: Option<Word>, kw: string, rest: string) {
    match w
    case None => Upper(FirstWord(rest)) != kw
    case Some(word) => KeywordFits(word, kw, rest)
  }

  predicate NoComma(rest: string) { SkipSpaces(rest) == "" || SkipSpaces(rest)[0] != ',' }

  // ---- Projections ----

  datatype NextName = NextName(before: string, name: NameForm)

  datatype ProjectionForm = Star(sp: string) | Names(first: NameForm, more: seq<NextName>)

  /** Further names, each behind a comma. */
  function NamesThen(more: seq<NextName>, rest: string): string
  {
    if more == [] then rest else more[0].before + ("," + NameThen(more[0].name, NamesThen(more[1..], rest)))
  }

  function NamesOf(more: seq<NextName>): seq<string>
  {
    if more == [] then [] else [NameOf(more[0].name)] + NamesOf(more[1..])
  }

  predicate NamesFit(more: seq<NextName>, rest: string)
  {
    if more == [] then NoComma(rest)
    else
      && Blank(more[0].before) && NameFits(more[0].name, NamesThen(more[1..], rest))
      && NamesFit(more[1..], rest)
  }

  function ProjectionsThen(p: ProjectionForm, rest: string): string {
    match p
    case Star(sp) => sp + ("*" + rest)
    case Names(first, more) => NameThen(first, NamesThen(more, rest))
  }

  function ProjectionsOf(p: ProjectionForm): seq<string> {
    match p
    case Star(_) => []
    case Names(first, more) => [NameOf(first)] + NamesOf(more)
  }

  predicate ProjectionsFit(p: ProjectionForm, rest: string) {
    match p
    case Star(sp) => Blank(sp)
    case Names(first, more) => NameFits(first, NamesThen(more, rest)) && NamesFit(more, rest)
  }

  // ---- Tables ----

  datatype AliasForm = Unaliased | WithAs(kw: Word, alias: Word) | Direct(alias: Word)

  datatype TableForm = TableForm(name: Word, alias: AliasForm)

  /** Words that do not become an alias; compared as written, unlike keywords. */
  predicate Guarded(word: string) { word in ["WHERE", "ORDER", "LIMIT", "JOIN", "INNER", "ON"] }

  function AliasThen(a: AliasForm, rest: string): string {
    match a
    case Unaliased => rest
    case WithAs(kw, alias) => WordThen(kw, WordThen(alias, rest))
    case Direct(alias) => WordThen(alias, rest)
  }

  /** Without an alias, what follows starts no identifier or a guarded one. */
  predicate AliasFits(a: AliasForm, rest: string) {
    match a
    case Unaliased => !StartsIdent(SkipSpaces(rest)) || Guarded(FirstWord(rest))
    case WithAs(kw, alias) => KeywordFits(kw, "AS", WordThen(alias, rest)) && WordFits(alias, rest)
    case Direct(alias) => WordFits(alias, rest) && Upper(alias.text) != "AS" && !Guarded(alias.text)
  }

  function TableThen(t: TableForm, rest: string): string { WordThen(t.name, AliasThen(t.alias, rest)) }

  predicate TableFits(t: TableForm, rest: string) {
    WordFits(t.name, AliasThen(t.alias, rest)) && AliasFits(t.alias, rest)
  }

  function TableOf(t: TableForm): TableRef {
    TableRef(t.name.text, if t.alias.Unaliased? then t.name.text else t.alias.alias.text)
  }

  // ---- Joins ----

  datatype JoinForm = JoinForm(inner: Option<Word>, join: Word, table: TableForm, on: Word, condition: ExprForm)

  function JoinThen(j: JoinForm, rest: string): string {
    MaybeThen(j.inner, WordThen(j.join, TableThen(j.table, WordThen(j.on, ExprThen(j.condition, rest)))))
  }

  predicate JoinFits(j: JoinForm, rest: string) {
    var condition := ExprThen(j.condition, rest);
    var on := WordThen(j.on, condition);
    var table := TableThen(j.table, on);
    && MaybeFits(j.inner, "INNER", WordThen(j.join, table)) && KeywordFits(j.join, "JOIN", table)
    && TableFits(j.table, on) && KeywordFits(j.on, "ON", condition) && WholeFits(j.condition, rest)
  }

  function JoinOf(j: JoinForm): JoinClause { JoinClause(TableOf(j.table), TreeOf(j.condition)) }

  function JoinsThen(joins: seq<JoinForm>, rest: string): string
  {
    if joins == [] then rest else JoinThen(joins[0], JoinsThen(joins[1..], rest))
  }

  function JoinsOf(joins: seq<JoinForm>): seq<JoinClause>
  {
    if joins == [] then [] else [JoinOf(joins[0])] + JoinsOf(joins[1..])
  }

  predicate JoinsFit(joins: seq<JoinForm>, rest: string)
  {
    joins != [] ==> JoinFits(joins[0], JoinsThen(joins[1..], rest)) && JoinsFit(joins[1..], rest)
  }

  // ---- WHERE, ORDER BY, LIMIT ----

  datatype WhereForm = WhereForm(kw: Word, condition: ExprForm)

  function WhereThen(w: Option<WhereForm>, rest: string): string {
    if w.None? then rest else WordThen(w.value.kw, ExprThen(w.value.condition, rest))
  }

  predicate WhereFits(w: Option<WhereForm>, rest: string) {
    match w
    case None => Upper(FirstWord(rest)) != "WHERE"
    case Some(form) => KeywordFits(form.kw, "WHERE", ExprThen(form.condition, rest)) && WholeFits(form.condition, rest)
  }

  function WhereOf(w: Option<WhereForm>): Option<Expr> {
    if w.None? then None else Some(TreeOf(w.value.condition))
  }

  datatype ItemForm = ItemForm(name: NameForm, direction: Option<Word>)

  datatype NextItem = NextItem(before: string, item: ItemForm)

  datatype OrderForm = OrderForm(orderWord: Word, byWord: Word, first: ItemForm, more: seq<NextItem>)

  function ItemThen(i: ItemForm, rest: string): string { NameThen(i.name, MaybeThen(i.direction, rest)) }

  /** ASC and DESC in any letter case; without either, something else follows. */
  predicate DirectionFits(d: Option<Word>, rest: string) {
    match d
    case None => Upper(FirstWord(rest)) != "ASC" && Upper(FirstWord(rest)) != "DESC"
    case Some(word) => KeywordFits(word, "ASC", rest) || KeywordFits(word, "DESC", rest)
  }

  predicate ItemFits(i: ItemForm, rest: string) {
    NameFits(i.name, MaybeThen(i.direction, rest)) && DirectionFits(i.direction, rest)
  }

  /** Ascending, unless DESC is written. */
  function ItemOf(i: ItemForm): OrderByColumn {
    OrderByColumn(NameOf(i.name),
                  if i.direction.Some? && Upper(i.direction.value.text) == "DESC" then Descending else Ascending)
  }

  function ItemsThen(more: seq<NextItem>, rest: string): string
  {
    if more == [] then rest else more[0].before + ("," + ItemThen(more[0].item, ItemsThen(more[1..], rest)))
  }

  function ItemsOf(more: seq<NextItem>): seq<OrderByColumn>
  {
    if more == [] then [] else [ItemOf(more[0].item)] + ItemsOf(more[1..])
  }

  predicate ItemsFit(more: seq<NextItem>, rest: string)
  {
    if more == [] then NoComma(rest)
    else
      && Blank(more[0].before) && ItemFits(more[0].item, ItemsThen(more[1..], rest))
      && ItemsFit(more[1..], rest)
  }

  function OrderThen(o: Option<OrderForm>, rest: string): string {
    if o.None? then rest
    else WordThen(o.value.orderWord, WordThen(o.value.byWord, ItemThen(o.value.first, ItemsThen(o.value.more, rest))))
  }

  predicate OrderFits(o: Option<OrderForm>, rest: string) {
    match o
    case None => Upper(FirstWord(rest)) != "ORDER"
    case Some(form) =>
      var items := ItemsThen(form.more, rest);
      var list := ItemThen(form.first, items);
      && KeywordFits(form.orderWord, "ORDER", WordThen(form.byWord, list)) && KeywordFits(form.byWord, "BY", list)
      && ItemFits(form.first, items) && ItemsFit(form.more, rest)
  }

  function OrderOf(o: Option<OrderForm>): seq<OrderByColumn> {
    if o.None? then [] else [ItemOf(o.value.first)] + ItemsOf(o.value.more)
  }

  datatype LimitForm = LimitForm(kw: Word, count: NumberForm)

  function LimitThen(l: Option<LimitForm>, rest: string): string {
    if l.None? then rest else WordThen(l.value.kw, NumberThen(l.value.count, rest))
  }

  /** The count is not negative. */
  predicate LimitFits(l: Option<LimitForm>, rest: string) {
    match l
    case None => Upper(FirstWord(rest)) != "LIMIT"
    case Some(form) =>
      && KeywordFits(form.kw, "LIMIT", NumberThen(form.count, rest)) && NumberFits(form.count, rest)
      && NumberOf(form.count) >= 0
  }

  function LimitOf(l: Option<LimitForm>): int { if l.None? then -1 else NumberOf(l.value.count) }

  // ---- Statements ----

  /** Blanks, and possibly a semicolon among them. */
  datatype EndForm = EndForm(before: string, semicolon: Option<string>)

  function EndText(e: EndForm): string {
    if e.semicolon.None? then e.before else e.before + (";" + e.semicolon.value)
  }

  predicate EndFits(e: EndForm) { Blank(e.before) && (e.semicolon.Some? ==> Blank(e.semicolon.value)) }

  /** An INNER may stand behind the joins with no JOIN after it. */
  datatype StatementForm = StatementForm(
    select: Word,
    projections: ProjectionForm,
    from: Word,
    table: TableForm,
    joins: seq<JoinForm>,
    stray: Option<Word>,
    filter: Option<WhereForm>,
    order: Option<OrderForm>,
    limit: Option<LimitForm>,
    end: EndForm)

  function FromLimit(s: StatementForm): string { LimitThen(s.limit, EndText(s.end)) }

  function FromOrder(s: StatementForm): string { OrderThen(s.order, FromLimit(s)) }

  function FromWhere(s: StatementForm): string { WhereThen(s.filter, FromOrder(s)) }

  function FromStray(s: StatementForm): string { MaybeThen(s.stray, FromWhere(s)) }

  function FromJoins(s: StatementForm): string { JoinsThen(s.joins, FromStray(s)) }

  function FromTable(s: StatementForm): string { TableThen(s.table, FromJoins(s)) }

  function FromProjections(s: StatementForm): string {
    ProjectionsThen(s.projections, WordThen(s.from, FromTable(s)))
  }

  /** The text of a form. */
  function TextOf(s: StatementForm): string { WordThen(s.select, FromProjections(s)) }

  /** Its pieces are well-formed and stay apart. */
  predicate StatementFits(s: StatementForm) {
    && KeywordFits(s.select, "SELECT", FromProjections(s))
    && ProjectionsFit(s.projections, WordThen(s.from, FromTable(s))) && KeywordFits(s.from, "FROM", FromTable(s))
    && TableFits(s.table, FromJoins(s))
    && JoinsFit(s.joins, FromStray(s))
    && MaybeFits(s.stray, "INNER", FromWhere(s)) && Upper(FirstWord(FromWhere(s))) != "JOIN"
    && WhereFits(s.filter, FromOrder(s)) && OrderFits(s.order, FromLimit(s)) && LimitFits(s.limit, EndText(s.end))
    && EndFits(s.end)
  }

  /** The statement it stands for. */
  function StatementOf(s: StatementForm): SelectStatement {
    var table := TableOf(s.table);
    SelectStatement(ProjectionsOf(s.projections), table.tableName, table.alias, JoinsOf(s.joins), WhereOf(s.filter),
                    OrderOf(s.order), LimitOf(s.limit))
  }
}
