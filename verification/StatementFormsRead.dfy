// The parser reads every written form of a statement as that statement.

module StatementFormsRead {
  import opened Common
  import opened Ast
  import opened Lexer
  import opened Grammar
  import opened ExprForms
  import opened ExprFormsRead
  import opened StatementForms

  // ---- Projections ----

  lemma NamesSame(read: seq<string>, s: string, t: string)
    requires SameText(s, t)
    ensures MoreNames(read, s) == MoreNames(read, t)
  {
  }

  lemma NextNameReads(read: seq<string>, before: string, name: NameForm, rest: string)
    requires Blank(before) && NameFits(name, rest)
    ensures MoreNames(read, before + ("," + NameThen(name, rest))) == MoreNames(read + [NameOf(name)], rest)
  {
    var text := "," + NameThen(name, rest);
    SkipBlank(before, text);
    assert text[1..] == NameThen(name, rest);
    NameReads(name, rest);
    NamesSame(read + [NameOf(name)], ReadName(NameThen(name, rest)).value.rest, rest);
  }

  lemma {:induction false} NamesRead(more: seq<NextName>, read: seq<string>, rest: string)
    requires NamesFit(more, rest)
    ensures MoreNames(read, NamesThen(more, rest)) == Ok(Parsed(read + NamesOf(more), SkipSpaces(rest)))
  {
    if more == [] {
      assert read + [] == read;
    } else {
      var name := NameOf(more[0].name);
      NextNameReads(read, more[0].before, more[0].name, NamesThen(more[1..], rest));
      NamesRead(more[1..], read + [name], rest);
      assert read + [name] + NamesOf(more[1..]) == read + ([name] + NamesOf(more[1..]));
    }
  }

  lemma ProjectionsRead(p: ProjectionForm, rest: string)
    requires ProjectionsFit(p, rest)
    ensures Gives(Projections(ProjectionsThen(p, rest)), ProjectionsOf(p), rest)
  {
    match p
    case Star(sp) =>
      SkipBlank(sp, "*" + rest);
      assert ("*" + rest)[1..] == rest;
    case Names(first, more) =>
      var tail := NamesThen(more, rest);
      NameReads(first, tail);
      NameStarts(first, tail);
      var s := NameThen(first, tail);
      assert ReadName(SkipSpaces(s)) == ReadName(s);
      NamesSame([NameOf(first)], ReadName(s).value.rest, tail);
      NamesRead(more, [NameOf(first)], rest);
  }

  // ---- Tables ----

  lemma IdentSame(s: string, t: string)
    requires SameText(s, t)
    ensures ReadIdent(s) == ReadIdent(t)
  {
  }

  lemma GuardedReserved(word: string)
    ensures Guarded(word) <==> Reserved(word)
    ensures Guarded(word) ==> Upper(word) == word && word != "AS"
  {
  }

  lemma UnaliasedReads(table: string, rest: string)
    requires !StartsIdent(SkipSpaces(rest)) || Guarded(FirstWord(rest))
    ensures Gives(Aliased(table, rest), TableRef(table, table), rest)
  {
    KeywordByWord("AS", rest);
    GuardedReserved(FirstWord(rest));
    var t := SkipSpaces(rest);
    IdentSame(t, rest);
    if !StartsIdent(t) {
      NoIdentWord(rest);
    }
  }

  /** What starts no identifier is no keyword. */
  lemma NoIdentWord(rest: string)
    requires !StartsIdent(SkipSpaces(rest))
    ensures Upper(FirstWord(rest)) != "AS"
  {
    var word := FirstWord(rest);
    if word != "" {
      assert word[0] == SkipSpaces(rest)[0] && Upper(word)[0] == UpperChar(word[0]);
    }
  }

  lemma AliasReads(table: string, a: AliasForm, rest: string)
    requires AliasFits(a, rest)
    ensures
      var alias := if a.Unaliased? then table else a.alias.text;
      Gives(Aliased(table, AliasThen(a, rest)), TableRef(table, alias), rest)
  {
    match a
    case Unaliased => UnaliasedReads(table, rest);
    case WithAs(kw, alias) =>
      WordReads(kw, WordThen(alias, rest), "AS");
      WordReads(alias, rest, "");
    case Direct(alias) =>
      WordReads(alias, rest, "AS");
      GuardedReserved(alias.text);
      IdentSame(alias.text + rest, WordThen(alias, rest));
  }

  lemma TableReads(t: TableForm, rest: string)
    requires TableFits(t, rest)
    ensures Gives(Table(TableThen(t, rest)), TableOf(t), rest)
  {
    WordReads(t.name, AliasThen(t.alias, rest), "");
    AliasReads(t.name.text, t.alias, rest);
  }

  // ---- Joins ----

  lemma MaybeReads(w: Option<Word>, kw: string, rest: string)
    requires MaybeFits(w, kw, rest)
    ensures SameText(TryKeyword(kw, MaybeThen(w, rest)).rest, rest)
    ensures TryKeyword(kw, MaybeThen(w, rest)).value <==> w.Some?
  {
    match w
    case None => KeywordByWord(kw, rest);
    case Some(word) => WordReads(word, rest, kw);
  }

  lemma ExprSame(s: string, t: string)
    requires SameText(s, t)
    ensures ExprOr(s) == ExprOr(t)
  {
    ExprAndSame(s, t);
  }

  lemma ExprAndSame(s: string, t: string)
    requires SameText(s, t)
    ensures ExprAnd(s) == ExprAnd(t)
  {
    KeywordSame("NOT", s, t);
  }

  /** From the table of a join on. */
  lemma OnReads(j: JoinForm, rest: string)
    requires
      var condition := ExprThen(j.condition, rest);
      && TableFits(j.table, WordThen(j.on, condition)) && KeywordFits(j.on, "ON", condition)
      && WholeFits(j.condition, rest)
    ensures OneJoin(TableThen(j.table, WordThen(j.on, ExprThen(j.condition, rest)))) ==
      Ok(Parsed(JoinOf(j), SkipSpaces(rest)))
  {
    var condition := ExprThen(j.condition, rest);
    var on := WordThen(j.on, condition);
    TableReads(j.table, on);
    KeywordSame("ON", Table(TableThen(j.table, on)).value.rest, on);
    WordReads(j.on, condition, "ON");
    WholeReads(j.condition, rest);
  }

  lemma JoinsSame(read: seq<JoinClause>, s: string, t: string)
    requires SameText(s, t)
    ensures Joins(read, s) == Joins(read, t)
  {
    KeywordSame("INNER", s, t);
  }

  lemma JoinReads(read: seq<JoinClause>, j: JoinForm, rest: string)
    requires JoinFits(j, rest)
    ensures Joins(read, JoinThen(j, rest)) == Joins(read + [JoinOf(j)], rest)
  {
    var table := TableThen(j.table, WordThen(j.on, ExprThen(j.condition, rest)));
    var join := WordThen(j.join, table);
    MaybeReads(j.inner, "INNER", join);
    KeywordSame("JOIN", TryKeyword("INNER", JoinThen(j, rest)).rest, join);
    WordReads(j.join, table, "JOIN");
    OnReads(j, rest);
    JoinsSame(read + [JoinOf(j)], SkipSpaces(rest), rest);
  }

  lemma {:induction false} JoinsRead(joins: seq<JoinForm>, read: seq<JoinClause>, rest: string)
    requires JoinsFit(joins, rest)
    ensures Joins(read, JoinsThen(joins, rest)) == Joins(read + JoinsOf(joins), rest)
  {
    if joins == [] {
      assert read + [] == read;
    } else {
      var join := JoinOf(joins[0]);
      JoinReads(read, joins[0], JoinsThen(joins[1..], rest));
      JoinsRead(joins[1..], read + [join], rest);
      assert read + [join] + JoinsOf(joins[1..]) == read + ([join] + JoinsOf(joins[1..]));
    }
  }

  lemma JoinsEnd(read: seq<JoinClause>, stray: Option<Word>, rest: string)
    requires MaybeFits(stray, "INNER", rest) && Upper(FirstWord(rest)) != "JOIN"
    ensures Gives(Joins(read, MaybeThen(stray, rest)), read, rest)
  {
    MaybeReads(stray, "INNER", rest);
    var inner := TryKeyword("INNER", MaybeThen(stray, rest)).rest;
    KeywordSame("JOIN", inner, rest);
    KeywordByWord("JOIN", rest);
  }

  // ---- WHERE, ORDER BY, LIMIT ----

  lemma WhereReads(w: Option<WhereForm>, rest: string)
    requires WhereFits(w, rest)
    ensures Gives(Where(WhereThen(w, rest)), WhereOf(w), rest)
  {
    match w
    case None => KeywordByWord("WHERE", rest);
    case Some(form) =>
      WordReads(form.kw, ExprThen(form.condition, rest), "WHERE");
      WholeReads(form.condition, rest);
  }

  lemma DirectionReads(d: Option<Word>, rest: string)
    requires DirectionFits(d, rest)
    ensures
      var r := Direction(MaybeThen(d, rest));
      && SameText(r.rest, rest)
      && (r.value == Descending <==> d.Some? && Upper(d.value.text) == "DESC")
  {
    match d
    case None =>
      KeywordByWord("DESC", rest);
      KeywordSame("ASC", SkipSpaces(rest), rest);
      KeywordByWord("ASC", rest);
    case Some(word) =>
      WordReads(word, rest, "DESC");
      WordReads(word, rest, "ASC");
      KeywordSame("ASC", word.text + rest, WordThen(word, rest));
  }

  lemma DirectionSame(s: string, t: string)
    requires SameText(s, t)
    ensures Direction(s) == Direction(t)
  {
    KeywordSame("DESC", s, t);
  }

  lemma ItemReads(i: ItemForm, rest: string)
    requires ItemFits(i, rest)
    ensures Gives(OneOrder(ItemThen(i, rest)), ItemOf(i), rest)
  {
    var tail := MaybeThen(i.direction, rest);
    NameReads(i.name, tail);
    DirectionReads(i.direction, rest);
    DirectionSame(ReadName(ItemThen(i, rest)).value.rest, tail);
  }

  lemma OrdersSame(read: seq<OrderByColumn>, s: string, t: string)
    requires SameText(s, t)
    ensures MoreOrders(read, s) == MoreOrders(read, t)
  {
  }

  lemma NextItemReads(read: seq<OrderByColumn>, before: string, item: ItemForm, rest: string)
    requires Blank(before) && ItemFits(item, rest)
    ensures MoreOrders(read, before + ("," + ItemThen(item, rest))) == MoreOrders(read + [ItemOf(item)], rest)
  {
    var text := "," + ItemThen(item, rest);
    SkipBlank(before, text);
    assert text[1..] == ItemThen(item, rest);
    ItemReads(item, rest);
    OrdersSame(read + [ItemOf(item)], OneOrder(ItemThen(item, rest)).value.rest, rest);
  }

  lemma {:induction false} ItemsRead(more: seq<NextItem>, read: seq<OrderByColumn>, rest: string)
    requires ItemsFit(more, rest)
    ensures MoreOrders(read, ItemsThen(more, rest)) == Ok(Parsed(read + ItemsOf(more), SkipSpaces(rest)))
  {
    if more == [] {
      assert read + [] == read;
    } else {
      var item := ItemOf(more[0].item);
      NextItemReads(read, more[0].before, more[0].item, ItemsThen(more[1..], rest));
      ItemsRead(more[1..], read + [item], rest);
      assert read + [item] + ItemsOf(more[1..]) == read + ([item] + ItemsOf(more[1..]));
    }
  }

  lemma OrderReads(o: Option<OrderForm>, rest: string)
    requires OrderFits(o, rest)
    ensures Gives(OrderBy(OrderThen(o, rest)), OrderOf(o), rest)
  {
    match o
    case None => KeywordByWord("ORDER", rest);
    case Some(form) =>
      var items := ItemsThen(form.more, rest);
      var list := ItemThen(form.first, items);
      WordReads(form.orderWord, WordThen(form.byWord, list), "ORDER");
      WordReads(form.byWord, list, "BY");
      ItemReads(form.first, items);
      OrdersSame([ItemOf(form.first)], OneOrder(list).value.rest, items);
      ItemsRead(form.more, [ItemOf(form.first)], rest);
  }

  lemma LimitReads(l: Option<LimitForm>, rest: string)
    requires LimitFits(l, rest)
    ensures Gives(LimitCount(LimitThen(l, rest)), LimitOf(l), rest)
  {
    match l
    case None => KeywordByWord("LIMIT", rest);
    case Some(form) =>
      WordReads(form.kw, NumberThen(form.count, rest), "LIMIT");
      NumberReads(form.count, rest);
  }

  // ---- Clauses only look behind the blanks ----

  lemma WhereSame(s: string, t: string)
    requires SameText(s, t)
    ensures Where(s) == Where(t)
  {
    KeywordSame("WHERE", s, t);
  }

  lemma OrderSame(s: string, t: string)
    requires SameText(s, t)
    ensures OrderBy(s) == OrderBy(t)
  {
    KeywordSame("ORDER", s, t);
  }

  lemma LimitSame(s: string, t: string)
    requires SameText(s, t)
    ensures LimitCount(s) == LimitCount(t)
  {
    KeywordSame("LIMIT", s, t);
  }

  lemma EndReads(e: EndForm)
    requires EndFits(e)
    ensures OnlyTerminator(EndText(e))
  {
    if e.semicolon.Some? {
      var tail := ";" + e.semicolon.value;
      SkipBlank(e.before, tail);
      assert tail[1..] == e.semicolon.value;
      AllBlank(e.semicolon.value);
    } else {
      AllBlank(e.before);
    }
  }

  lemma AllBlank(sp: string)
    requires Blank(sp)
    ensures SkipSpaces(sp) == ""
  {
    SkipBlank(sp, "");
    assert sp + "" == sp;
  }

  lemma TerminatorSame(s: string, t: string)
    requires SameText(s, t)
    ensures OnlyTerminator(s) == OnlyTerminator(t)
  {
  }

  // ---- Statements ----

  lemma AllJoinsRead(joins: seq<JoinForm>, stray: Option<Word>, rest: string, s: string)
    requires JoinsFit(joins, MaybeThen(stray, rest)) && SameText(s, JoinsThen(joins, MaybeThen(stray, rest)))
    requires MaybeFits(stray, "INNER", rest) && Upper(FirstWord(rest)) != "JOIN"
    ensures Gives(Joins([], s), JoinsOf(joins), rest)
  {
    JoinsSame([], s, JoinsThen(joins, MaybeThen(stray, rest)));
    JoinsRead(joins, [], MaybeThen(stray, rest));
    assert [] + JoinsOf(joins) == JoinsOf(joins);
    JoinsEnd(JoinsOf(joins), stray, rest);
  }

  lemma JoinsClause(s: StatementForm, rest: string)
    requires StatementFits(s) && SameText(rest, FromJoins(s))
    ensures Gives(Joins([], rest), JoinsOf(s.joins), FromWhere(s))
  {
    AllJoinsRead(s.joins, s.stray, FromWhere(s), rest);
  }

  lemma WhereClause(s: StatementForm, rest: string)
    requires StatementFits(s) && SameText(rest, FromWhere(s))
    ensures Gives(Where(rest), WhereOf(s.filter), FromOrder(s))
  {
    WhereSame(rest, FromWhere(s));
    WhereReads(s.filter, FromOrder(s));
  }

  lemma OrderClause(s: StatementForm, rest: string)
    requires StatementFits(s) && SameText(rest, FromOrder(s))
    ensures Gives(OrderBy(rest), OrderOf(s.order), FromLimit(s))
  {
    OrderSame(rest, FromOrder(s));
    OrderReads(s.order, FromLimit(s));
  }

  lemma LimitClause(s: StatementForm, rest: string)
    requires StatementFits(s) && SameText(rest, FromLimit(s))
    ensures Gives(LimitCount(rest), LimitOf(s.limit), EndText(s.end))
  {
    LimitSame(rest, FromLimit(s));
    LimitReads(s.limit, EndText(s.end));
  }

  /** Four clauses in turn. */
  lemma ClausesChain(projections: seq<string>, table: TableRef, rest: string, joins: seq<JoinClause>,
                     filter: Option<Expr>, orderBy: seq<OrderByColumn>, limit: int, end: string)
    requires Joins([], rest).Ok? && Joins([], rest).value.value == joins
    requires
      var afterJoins := Joins([], rest).value.rest;
      && Where(afterJoins).Ok? && Where(afterJoins).value.value == filter
      && var afterWhere := Where(afterJoins).value.rest;
      && OrderBy(afterWhere).Ok? && OrderBy(afterWhere).value.value == orderBy
      && Gives(LimitCount(OrderBy(afterWhere).value.rest), limit, end)
    ensures Gives(Clauses(projections, table, rest),
      SelectStatement(projections, table.tableName, table.alias, joins, filter, orderBy, limit), end)
  {
  }

  lemma ClausesRead(s: StatementForm, rest: string)
    requires StatementFits(s) && SameText(rest, FromJoins(s))
    ensures Gives(Clauses(ProjectionsOf(s.projections), TableOf(s.table), rest), StatementOf(s), EndText(s.end))
  {
    JoinsClause(s, rest);
    var afterJoins := Joins([], rest).value.rest;
    WhereClause(s, afterJoins);
    var afterWhere := Where(afterJoins).value.rest;
    OrderClause(s, afterWhere);
    LimitClause(s, OrderBy(afterWhere).value.rest);
    ClausesChain(ProjectionsOf(s.projections), TableOf(s.table), rest, JoinsOf(s.joins), WhereOf(s.filter),
                 OrderOf(s.order), LimitOf(s.limit), EndText(s.end));
  }

  lemma SelectReads(s: StatementForm)
    requires StatementFits(s)
    ensures Gives(Select(TextOf(s)), StatementOf(s), EndText(s.end))
  {
    var from := WordThen(s.from, FromTable(s));
    WordReads(s.select, FromProjections(s), "SELECT");
    ProjectionsRead(s.projections, from);
    KeywordSame("FROM", Projections(FromProjections(s)).value.rest, from);
    WordReads(s.from, FromTable(s), "FROM");
    TableReads(s.table, FromJoins(s));
    ClausesRead(s, Table(FromTable(s)).value.rest);
  }

  /** The parser reads every written form as the statement it stands for. */
  lemma FormReads(s: StatementForm)
    requires StatementFits(s)
    ensures Statement(TextOf(s)) == Ok(StatementOf(s))
  {
    SelectReads(s);
    EndReads(s.end);
    TerminatorSame(Select(TextOf(s)).value.rest, EndText(s.end));
  }
}
