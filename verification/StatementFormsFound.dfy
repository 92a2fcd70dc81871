// Whatever text the parser accepts is a written form of the statement it returns.

module StatementFormsFound {
  import opened Common
  import opened Ast
  import opened Lexer
  import opened Grammar
  import opened ExprForms
  import opened ExprFormsRead
  import opened ExprFormsFound
  import opened StatementForms
  import opened StatementFormsRead

  // ---- Projections ----


  /** A name behind a comma, in front of tail. */
  predicate NextWritten(text: string, x: NextName, tail: string) {
    text == x.before + ("," + NameThen(x.name, tail)) && Blank(x.before) && NameFits(x.name, tail)
  }

  predicate NamesWritten(text: string, more: seq<NextName>, rest: string) {
    text == NamesThen(more, rest) && NamesFit(more, rest)
  }

  lemma NamesLonger(text: string, x: NextName, tail: string, more: seq<NextName>, rest: string)
    requires NextWritten(text, x, tail) && NamesWritten(tail, more, rest)
    ensures NamesWritten(text, [x] + more, rest) && NamesOf([x] + more) == [NameOf(x.name)] + NamesOf(more)
  {
    assert ([x] + more)[1..] == more;
  }

  /** The gap in front of a character that is not blank. */
  lemma CommaFound(gap: string, s: string, text: string)
    requires Blank(gap) && SkipSpaces(s) != "" && SkipSpaces(s)[0] == ',' && SkipSpaces(s)[1..] == text
    ensures Blank(gap + Gap(s)) && gap + s == (gap + Gap(s)) + ("," + text)
  {
    GapsJoin(gap, s);
    assert SkipSpaces(s) == "," + text;
  }

  lemma CommaAbsent(gap: string, s: string)
    requires Blank(gap) && (SkipSpaces(s) == "" || SkipSpaces(s)[0] != ',')
    ensures Blank(gap + Gap(s)) && gap + s == (gap + Gap(s)) + SkipSpaces(s)
    ensures NoComma((gap + Gap(s)) + SkipSpaces(s))
  {
    GapsJoin(gap, s);
  }

  lemma NextFound(gap: string, s: string) returns (x: NextName, after: string)
    requires Blank(gap) && SkipSpaces(s) != "" && SkipSpaces(s)[0] == ',' && ReadName(SkipSpaces(s)[1..]).Ok?
    ensures
      var r := ReadName(SkipSpaces(s)[1..]).value;
      Blank(after) && NextWritten(gap + s, x, after + r.rest) && NameOf(x.name) == r.value
  {
    var t := SkipSpaces(s)[1..];
    CommaFound(gap, s, t);
    NothingBefore(t);
    var name;
    name, after := NameFound("", t);
    x := NextName(gap + Gap(s), name);
  }

  lemma Regroup<T>(a: seq<T>, x: T, b: seq<T>)
    ensures a + [x] + b == a + ([x] + b)
  {
  }

  lemma NamesEnd(read: seq<string>, gap: string, s: string) returns (after: string)
    requires Blank(gap) && (SkipSpaces(s) == "" || SkipSpaces(s)[0] != ',')
    ensures Blank(after) && NamesWritten(gap + s, [], after + SkipSpaces(s)) && read == read + NamesOf([])
    ensures MoreNames(read, s) == Ok(Parsed(read, SkipSpaces(s)))
  {
    CommaAbsent(gap, s);
    after := gap + Gap(s);
  }

  lemma NamesStep(read: seq<string>, s: string)
    requires SkipSpaces(s) != "" && SkipSpaces(s)[0] == ',' && MoreNames(read, s).Ok?
    ensures ReadName(SkipSpaces(s)[1..]).Ok?
    ensures
      var r := ReadName(SkipSpaces(s)[1..]).value;
      MoreNames(read, s) == MoreNames(read + [r.value], r.rest) && |r.rest| < |s|
  {
  }

  lemma {:induction false} NamesFound(read: seq<string>, gap: string, s: string)
    returns (more: seq<NextName>, after: string)
    requires Blank(gap) && MoreNames(read, s).Ok?
    ensures
      var r := MoreNames(read, s).value;
      Blank(after) && NamesWritten(gap + s, more, after + r.rest) && r.value == read + NamesOf(more)
    decreases |s|
  {
    var t := SkipSpaces(s);
    if t == "" || t[0] != ',' {
      after := NamesEnd(read, gap, s);
      more := [];
    } else {
      NamesStep(read, s);
      var next, between := NextFound(gap, s);
      var r := ReadName(t[1..]).value;
      var others;
      others, after := NamesFound(read + [r.value], between, r.rest);
      NamesLonger(gap + s, next, between + r.rest, others, after + MoreNames(read, s).value.rest);
      Regroup(read, r.value, NamesOf(others));
      more := [next] + others;
    }
  }

  lemma ProjectionsFound(s: string) returns (p: ProjectionForm, after: string)
    requires Projections(s).Ok?
    ensures
      var r := Projections(s).value;
      && Blank(after) && s == ProjectionsThen(p, after + r.rest) && ProjectionsFit(p, after + r.rest)
      && r.value == ProjectionsOf(p)
  {
    var t := SkipSpaces(s);
    GapSplit(s);
    if t != "" && t[0] == '*' {
      p, after := Star(Gap(s)), "";
      NothingBefore(t[1..]);
      assert t == "*" + t[1..];
    } else {
      var first, between := NameFound(Gap(s), t);
      var r := ReadName(t).value;
      var more;
      more, after := NamesFound([r.value], between, r.rest);
      p := Names(first, more);
    }
  }

  // ---- Tables ----

  lemma AsFound(gap: string, table: string, s: string) returns (a: AliasForm)
    requires Blank(gap) && Aliased(table, s).Ok? && TryKeyword("AS", s).value
    ensures
      var r := Aliased(table, s).value;
      && gap + s == AliasThen(a, r.rest) && AliasFits(a, r.rest) && a.WithAs?
      && r.value == TableRef(table, a.alias.text)
  {
    var kw := KeywordFound(gap, s, "AS");
    var rest := TryKeyword("AS", s).rest;
    var alias := WordFound("", rest);
    NothingBefore(rest);
    a := WithAs(kw, alias);
  }

  lemma DirectFound(gap: string, s: string) returns (a: AliasForm)
    requires Blank(gap) && ReadIdent(s).Ok? && Upper(FirstWord(s)) != "AS" && !Guarded(FirstWord(s))
    ensures gap + s == AliasThen(a, ReadIdent(s).value.rest) && AliasFits(a, ReadIdent(s).value.rest)
    ensures a.Direct? && a.alias.text == ReadIdent(s).value.value
  {
    var alias := WordFound(gap, s);
    a := Direct(alias);
  }

  lemma AliasFound(gap: string, table: string, s: string) returns (a: AliasForm, after: string)
    requires Blank(gap) && Aliased(table, s).Ok?
    ensures
      var r := Aliased(table, s).value;
      && Blank(after) && gap + s == AliasThen(a, after + r.rest) && AliasFits(a, after + r.rest)
      && r.value == TableRef(table, if a.Unaliased? then table else a.alias.text)
  {
    GapEnds(gap, s, "AS");
    GuardedReserved(FirstWord(s));
    IdentSame(SkipSpaces(s), s);
    var rest := Aliased(table, s).value.rest;
    NothingBefore(rest);
    if TryKeyword("AS", s).value {
      a := AsFound(gap, table, s);
      after := "";
    } else if ReadIdent(s).Ok? && !Guarded(FirstWord(s)) {
      a := DirectFound(gap, s);
      after := "";
    } else {
      GapsJoin(gap, s);
      SkipBlank(gap + Gap(s), SkipSpaces(s));
      a, after := Unaliased, gap + Gap(s);
    }
  }

  lemma TableFound(s: string) returns (t: TableForm, after: string)
    requires Table(s).Ok?
    ensures
      var r := Table(s).value;
      && Blank(after) && s == TableThen(t, after + r.rest) && TableFits(t, after + r.rest) && r.value == TableOf(t)
  {
    NothingBefore(s);
    var name := WordFound("", s);
    var rest := ReadIdent(s).value.rest;
    NothingBefore(rest);
    var a;
    a, after := AliasFound("", name.text, rest);
    t := TableForm(name, a);
  }

  // ---- Joins ----

  lemma MaybeFound(gap: string, s: string, kw: string) returns (w: Option<Word>, after: string)
    requires Blank(gap) && Capitals(kw)
    ensures
      var rest := TryKeyword(kw, s).rest;
      && Blank(after) && gap + s == MaybeThen(w, after + rest) && MaybeFits(w, kw, after + rest)
  {
    GapEnds(gap, s, kw);
    if TryKeyword(kw, s).value {
      var word := KeywordFound(gap, s, kw);
      NothingBefore(TryKeyword(kw, s).rest);
      w, after := Some(word), "";
    } else {
      w, after := None, gap + Gap(s);
    }
  }

  /** A join from its table on. */
  lemma OneJoinFound(s: string) returns (table: TableForm, on: Word, condition: ExprForm, after: string)
    requires OneJoin(s).Ok?
    ensures
      var r := OneJoin(s).value;
      && Blank(after) && TargetWritten(s, table, on, condition, after + r.rest)
      && r.value == JoinClause(TableOf(table), TreeOf(condition))
  {
    var gap;
    table, gap := TableFound(s);
    var t := Table(s).value.rest;
    on := KeywordFound(gap, t, "ON");
    condition, after := OrFound(TryKeyword("ON", t).rest);
  }


  predicate JoinWritten(text: string, j: JoinForm, tail: string) { text == JoinThen(j, tail) && JoinFits(j, tail) }

  predicate JoinsWritten(text: string, joins: seq<JoinForm>, rest: string) {
    text == JoinsThen(joins, rest) && JoinsFit(joins, rest)
  }

  lemma JoinsLonger(text: string, x: JoinForm, tail: string, joins: seq<JoinForm>, rest: string)
    requires JoinWritten(text, x, tail) && JoinsWritten(tail, joins, rest)
    ensures JoinsWritten(text, [x] + joins, rest) && JoinsOf([x] + joins) == [JoinOf(x)] + JoinsOf(joins)
  {
    assert ([x] + joins)[1..] == joins;
  }

  /** The part of a join behind its keywords. */
  predicate TargetWritten(text: string, table: TableForm, on: Word, condition: ExprForm, tail: string) {
    var from := WordThen(on, ExprThen(condition, tail));
    && text == TableThen(table, from) && TableFits(table, from)
    && KeywordFits(on, "ON", ExprThen(condition, tail)) && WholeFits(condition, tail)
  }

  lemma JoinJoin(text: string, j: JoinForm, afterInner: string, afterJoin: string, tail: string)
    requires TargetWritten(afterJoin, j.table, j.on, j.condition, tail)
    requires afterInner == WordThen(j.join, afterJoin) && KeywordFits(j.join, "JOIN", afterJoin)
    requires text == MaybeThen(j.inner, afterInner) && MaybeFits(j.inner, "INNER", afterInner)
    ensures JoinWritten(text, j, tail)
  {
  }

  /** INNER, if written, and JOIN. */
  lemma JoinWordsFound(gap: string, s: string)
    returns (inner: Option<Word>, join: Word, afterInner: string, afterJoin: string)
    requires Blank(gap) && TryKeyword("JOIN", TryKeyword("INNER", s).rest).value
    ensures afterJoin == TryKeyword("JOIN", TryKeyword("INNER", s).rest).rest
    ensures afterInner == WordThen(join, afterJoin) && KeywordFits(join, "JOIN", afterJoin)
    ensures gap + s == MaybeThen(inner, afterInner) && MaybeFits(inner, "INNER", afterInner)
  {
    var between;
    inner, between := MaybeFound(gap, s, "INNER");
    var t := TryKeyword("INNER", s).rest;
    join := KeywordFound(between, t, "JOIN");
    afterInner, afterJoin := between + t, TryKeyword("JOIN", t).rest;
  }

  /** One join with its keywords. */
  lemma JoinFound(gap: string, s: string) returns (j: JoinForm, after: string)
    requires Blank(gap)
    requires
      var k := TryKeyword("JOIN", TryKeyword("INNER", s).rest);
      k.value && OneJoin(k.rest).Ok?
    ensures
      var r := OneJoin(TryKeyword("JOIN", TryKeyword("INNER", s).rest).rest).value;
      Blank(after) && JoinWritten(gap + s, j, after + r.rest) && r.value == JoinOf(j)
  {
    var inner, join, afterInner, u := JoinWordsFound(gap, s);
    var table, on, condition;
    table, on, condition, after := OneJoinFound(u);
    j := JoinForm(inner, join, table, on, condition);
    JoinJoin(gap + s, j, afterInner, u, after + OneJoin(u).value.rest);
  }

  /** No further join: possibly an INNER without one. */
  lemma StrayFound(gap: string, s: string) returns (stray: Option<Word>, after: string)
    requires Blank(gap) && !TryKeyword("JOIN", TryKeyword("INNER", s).rest).value
    ensures
      var rest := after + TryKeyword("JOIN", TryKeyword("INNER", s).rest).rest;
      Blank(after) && StrayWritten(gap + s, stray, rest)
  {
    var between;
    stray, between := MaybeFound(gap, s, "INNER");
    var t := TryKeyword("INNER", s).rest;
    GapEnds(between, t, "JOIN");
    after := between + Gap(t);
  }

  predicate StrayWritten(text: string, stray: Option<Word>, rest: string) {
    text == MaybeThen(stray, rest) && MaybeFits(stray, "INNER", rest) && Upper(FirstWord(rest)) != "JOIN"
  }

  lemma NoMoreJoins(read: seq<JoinClause>, s: string)
    requires !TryKeyword("JOIN", TryKeyword("INNER", s).rest).value
    ensures Joins(read, s) == Ok(Parsed(read, TryKeyword("JOIN", TryKeyword("INNER", s).rest).rest))
    ensures JoinsWritten(s, [], s) && read == read + JoinsOf([])
  {
  }

  lemma JoinsStep(read: seq<JoinClause>, s: string)
    requires Joins(read, s).Ok? && TryKeyword("JOIN", TryKeyword("INNER", s).rest).value
    ensures
      var k := TryKeyword("JOIN", TryKeyword("INNER", s).rest);
      OneJoin(k.rest).Ok? &&
      var r := OneJoin(k.rest).value;
      Joins(read, s) == Joins(read + [r.value], r.rest) && |r.rest| < |s|
  {
  }

  lemma {:induction false} JoinsFound(read: seq<JoinClause>, gap: string, s: string)
    returns (joins: seq<JoinForm>, stray: Option<Word>, behind: string, after: string)
    requires Blank(gap) && Joins(read, s).Ok?
    ensures
      var r := Joins(read, s).value;
      && Blank(after) && JoinsWritten(gap + s, joins, behind) && StrayWritten(behind, stray, after + r.rest)
      && r.value == read + JoinsOf(joins)
    decreases |s|
  {
    var k := TryKeyword("JOIN", TryKeyword("INNER", s).rest);
    if !k.value {
      stray, after := StrayFound(gap, s);
      NoMoreJoins(read, s);
      joins, behind := [], gap + s;
    } else {
      JoinsStep(read, s);
      var j, between := JoinFound(gap, s);
      var r := OneJoin(k.rest).value;
      var others;
      others, stray, behind, after := JoinsFound(read + [r.value], between, r.rest);
      JoinsLonger(gap + s, j, between + r.rest, others, behind);
      Regroup(read, r.value, JoinsOf(others));
      joins := [j] + others;
    }
  }

  // ---- WHERE, ORDER BY, LIMIT ----

  lemma WhereFound(gap: string, s: string) returns (w: Option<WhereForm>, after: string)
    requires Blank(gap) && Where(s).Ok?
    ensures
      var r := Where(s).value;
      && Blank(after) && gap + s == WhereThen(w, after + r.rest) && WhereFits(w, after + r.rest)
      && r.value == WhereOf(w)
  {
    GapEnds(gap, s, "WHERE");
    if TryKeyword("WHERE", s).value {
      var kw := KeywordFound(gap, s, "WHERE");
      var e;
      e, after := OrFound(TryKeyword("WHERE", s).rest);
      w := Some(WhereForm(kw, e));
    } else {
      w, after := None, gap + Gap(s);
    }
  }

  lemma DirectionWordFound(gap: string, s: string, kw: string) returns (word: Word)
    requires Blank(gap) && TryKeyword(kw, s).value && (kw == "DESC" || kw == "ASC")
    ensures gap + s == WordThen(word, TryKeyword(kw, s).rest) && Upper(word.text) == kw
    ensures DirectionFits(Some(word), TryKeyword(kw, s).rest)
  {
    word := KeywordFound(gap, s, kw);
  }

  lemma DirectionFound(gap: string, s: string) returns (d: Option<Word>, after: string)
    requires Blank(gap)
    ensures
      var r := Direction(s);
      && Blank(after) && gap + s == MaybeThen(d, after + r.rest)
      && DirectionFits(d, after + r.rest)
      && (r.value == Descending <==> d.Some? && Upper(d.value.text) == "DESC")
  {
    KeywordSame("ASC", SkipSpaces(s), s);
    NothingBefore(Direction(s).rest);
    if TryKeyword("DESC", s).value {
      var word := DirectionWordFound(gap, s, "DESC");
      d, after := Some(word), "";
    } else if TryKeyword("ASC", s).value {
      var word := DirectionWordFound(gap, s, "ASC");
      d, after := Some(word), "";
    } else {
      after := NoDirection(gap, s);
      d := None;
    }
  }

  lemma NoDirection(gap: string, s: string) returns (after: string)
    requires Blank(gap) && !TryKeyword("DESC", s).value && !TryKeyword("ASC", s).value
    ensures Direction(s) == Parsed(Ascending, SkipSpaces(s))
    ensures Blank(after) && gap + s == after + SkipSpaces(s) && DirectionFits(None, after + SkipSpaces(s))
  {
    GapEnds(gap, s, "DESC");
    GapEnds(gap, s, "ASC");
    KeywordSame("ASC", SkipSpaces(s), s);
    after := gap + Gap(s);
  }

  lemma ItemFound(s: string) returns (i: ItemForm, after: string)
    requires OneOrder(s).Ok?
    ensures
      var r := OneOrder(s).value;
      && Blank(after) && s == ItemThen(i, after + r.rest) && ItemFits(i, after + r.rest) && r.value == ItemOf(i)
  {
    NothingBefore(s);
    var name, between := NameFound("", s);
    var direction;
    direction, after := DirectionFound(between, ReadName(s).value.rest);
    i := ItemForm(name, direction);
  }


  predicate NextItemWritten(text: string, x: NextItem, tail: string) {
    text == x.before + ("," + ItemThen(x.item, tail)) && Blank(x.before) && ItemFits(x.item, tail)
  }

  predicate ItemsWritten(text: string, more: seq<NextItem>, rest: string) {
    text == ItemsThen(more, rest) && ItemsFit(more, rest)
  }

  lemma ItemsLonger(text: string, x: NextItem, tail: string, more: seq<NextItem>, rest: string)
    requires NextItemWritten(text, x, tail) && ItemsWritten(tail, more, rest)
    ensures ItemsWritten(text, [x] + more, rest) && ItemsOf([x] + more) == [ItemOf(x.item)] + ItemsOf(more)
  {
    assert ([x] + more)[1..] == more;
  }

  lemma NextItemFound(gap: string, s: string) returns (x: NextItem, after: string)
    requires Blank(gap) && SkipSpaces(s) != "" && SkipSpaces(s)[0] == ',' && OneOrder(SkipSpaces(s)[1..]).Ok?
    ensures
      var r := OneOrder(SkipSpaces(s)[1..]).value;
      Blank(after) && NextItemWritten(gap + s, x, after + r.rest) && ItemOf(x.item) == r.value
  {
    var t := SkipSpaces(s)[1..];
    CommaFound(gap, s, t);
    var item;
    item, after := ItemFound(t);
    x := NextItem(gap + Gap(s), item);
  }

  lemma ItemsEnd(read: seq<OrderByColumn>, gap: string, s: string) returns (after: string)
    requires Blank(gap) && (SkipSpaces(s) == "" || SkipSpaces(s)[0] != ',')
    ensures Blank(after) && ItemsWritten(gap + s, [], after + SkipSpaces(s)) && read == read + ItemsOf([])
    ensures MoreOrders(read, s) == Ok(Parsed(read, SkipSpaces(s)))
  {
    CommaAbsent(gap, s);
    after := gap + Gap(s);
  }

  lemma ItemsStep(read: seq<OrderByColumn>, s: string)
    requires SkipSpaces(s) != "" && SkipSpaces(s)[0] == ',' && MoreOrders(read, s).Ok?
    ensures OneOrder(SkipSpaces(s)[1..]).Ok?
    ensures
      var r := OneOrder(SkipSpaces(s)[1..]).value;
      MoreOrders(read, s) == MoreOrders(read + [r.value], r.rest) && |r.rest| < |s|
  {
  }

  lemma {:induction false} ItemsFound(read: seq<OrderByColumn>, gap: string, s: string)
    returns (more: seq<NextItem>, after: string)
    requires Blank(gap) && MoreOrders(read, s).Ok?
    ensures
      var r := MoreOrders(read, s).value;
      Blank(after) && ItemsWritten(gap + s, more, after + r.rest) && r.value == read + ItemsOf(more)
    decreases |s|
  {
    var t := SkipSpaces(s);
    if t == "" || t[0] != ',' {
      after := ItemsEnd(read, gap, s);
      more := [];
    } else {
      ItemsStep(read, s);
      var next, between := NextItemFound(gap, s);
      var r := OneOrder(t[1..]).value;
      var others;
      others, after := ItemsFound(read + [r.value], between, r.rest);
      ItemsLonger(gap + s, next, between + r.rest, others, after + MoreOrders(read, s).value.rest);
      Regroup(read, r.value, ItemsOf(others));
      more := [next] + others;
    }
  }

  lemma OrderJoin(text: string, form: OrderForm, afterOrder: string, afterBy: string, items: string, rest: string)
    requires text == WordThen(form.orderWord, afterOrder) && KeywordFits(form.orderWord, "ORDER", afterOrder)
    requires afterOrder == WordThen(form.byWord, afterBy) && KeywordFits(form.byWord, "BY", afterBy)
    requires afterBy == ItemThen(form.first, items) && ItemFits(form.first, items)
    requires ItemsWritten(items, form.more, rest)
    ensures text == OrderThen(Some(form), rest) && OrderFits(Some(form), rest)
  {
  }

  lemma OrderSteps(s: string)
    requires OrderBy(s).Ok? && TryKeyword("ORDER", s).value
    ensures
      var next := TryKeyword("BY", TryKeyword("ORDER", s).rest);
      && next.value && OneOrder(next.rest).Ok?
      && var first := OneOrder(next.rest).value;
      && OrderBy(s) == MoreOrders([first.value], first.rest)
  {
  }

  /** The two words ORDER BY. */
  lemma OrderByFound(gap: string, s: string) returns (orderWord: Word, byWord: Word, t: string, list: string)
    requires Blank(gap) && TryKeyword("ORDER", s).value && TryKeyword("BY", TryKeyword("ORDER", s).rest).value
    ensures t == TryKeyword("ORDER", s).rest && list == TryKeyword("BY", t).rest
    ensures gap + s == WordThen(orderWord, t) && KeywordFits(orderWord, "ORDER", t)
    ensures t == WordThen(byWord, list) && KeywordFits(byWord, "BY", list)
  {
    orderWord := KeywordFound(gap, s, "ORDER");
    t := TryKeyword("ORDER", s).rest;
    NothingBefore(t);
    byWord := KeywordFound("", t, "BY");
    list := TryKeyword("BY", t).rest;
  }

  lemma OrderWrittenFound(gap: string, s: string) returns (form: OrderForm, after: string)
    requires Blank(gap) && OrderBy(s).Ok? && TryKeyword("ORDER", s).value
    ensures
      var r := OrderBy(s).value;
      && Blank(after) && gap + s == OrderThen(Some(form), after + r.rest) && OrderFits(Some(form), after + r.rest)
      && r.value == OrderOf(Some(form))
  {
    OrderSteps(s);
    var orderWord, byWord, t, list := OrderByFound(gap, s);
    var first, between := ItemFound(list);
    var r := OneOrder(list).value;
    var more;
    more, after := ItemsFound([r.value], between, r.rest);
    form := OrderForm(orderWord, byWord, first, more);
    OrderJoin(gap + s, form, t, list, between + r.rest, after + OrderBy(s).value.rest);
  }

  lemma OrderFound(gap: string, s: string) returns (o: Option<OrderForm>, after: string)
    requires Blank(gap) && OrderBy(s).Ok?
    ensures
      var r := OrderBy(s).value;
      && Blank(after) && gap + s == OrderThen(o, after + r.rest) && OrderFits(o, after + r.rest)
      && r.value == OrderOf(o)
  {
    GapEnds(gap, s, "ORDER");
    if TryKeyword("ORDER", s).value {
      var form;
      form, after := OrderWrittenFound(gap, s);
      o := Some(form);
    } else {
      o, after := None, gap + Gap(s);
    }
  }

  lemma LimitFound(gap: string, s: string) returns (l: Option<LimitForm>, after: string)
    requires Blank(gap) && LimitCount(s).Ok?
    ensures
      var r := LimitCount(s).value;
      && Blank(after) && gap + s == LimitThen(l, after + r.rest) && LimitFits(l, after + r.rest)
      && r.value == LimitOf(l)
  {
    GapEnds(gap, s, "LIMIT");
    NothingBefore(LimitCount(s).value.rest);
    if TryKeyword("LIMIT", s).value {
      var kw := KeywordFound(gap, s, "LIMIT");
      var t := TryKeyword("LIMIT", s).rest;
      NothingBefore(t);
      var count := NumberFound("", t);
      l, after := Some(LimitForm(kw, count)), "";
    } else {
      l, after := None, gap + Gap(s);
    }
  }

  lemma BlankOnly(s: string)
    requires SkipSpaces(s) == ""
    ensures Blank(s)
  {
    GapSplit(s);
    assert s == Gap(s);
  }

  lemma EndFound(gap: string, s: string) returns (e: EndForm)
    requires Blank(gap) && OnlyTerminator(s)
    ensures gap + s == EndText(e) && EndFits(e)
  {
    GapsJoin(gap, s);
    var t := SkipSpaces(s);
    if t == "" {
      e := EndForm(gap + Gap(s), None);
    } else {
      BlankOnly(t[1..]);
      assert t == ";" + t[1..];
      e := EndForm(gap + Gap(s), Some(t[1..]));
    }
  }

  // ---- Statements ----

  /** The clauses behind the table, in front of the end. */
  predicate ClausesWritten(s: StatementForm, text: string) {
    && text == FromJoins(s) && JoinsFit(s.joins, FromStray(s))
    && MaybeFits(s.stray, "INNER", FromWhere(s)) && Upper(FirstWord(FromWhere(s))) != "JOIN"
    && WhereFits(s.filter, FromOrder(s)) && OrderFits(s.order, FromLimit(s)) && LimitFits(s.limit, EndText(s.end))
    && EndFits(s.end)
  }

  /** The clauses of a form put together, each in front of the text of the next. */
  lemma ClausesJoin(s: StatementForm, text: string, behind: string, afterJoins: string, afterWhere: string,
                    afterOrder: string, afterLimit: string)
    requires afterLimit == EndText(s.end) && EndFits(s.end)
    requires afterOrder == LimitThen(s.limit, afterLimit) && LimitFits(s.limit, afterLimit)
    requires afterWhere == OrderThen(s.order, afterOrder) && OrderFits(s.order, afterOrder)
    requires afterJoins == WhereThen(s.filter, afterWhere) && WhereFits(s.filter, afterWhere)
    requires JoinsWritten(text, s.joins, behind) && StrayWritten(behind, s.stray, afterJoins)
    ensures ClausesWritten(s, text)
  {
    assert FromLimit(s) == afterOrder;
    assert FromOrder(s) == afterWhere;
    assert FromWhere(s) == afterJoins;
  }

  lemma TailFound(gap: string, s: string)
    returns (filter: Option<WhereForm>, order: Option<OrderForm>, limit: Option<LimitForm>, end: EndForm,
             afterWhere: string, afterOrder: string, afterLimit: string)
    requires Blank(gap) && Where(s).Ok? && OrderBy(Where(s).value.rest).Ok?
    requires
      var limit := LimitCount(OrderBy(Where(s).value.rest).value.rest);
      limit.Ok? && OnlyTerminator(limit.value.rest)
    ensures gap + s == WhereThen(filter, afterWhere) && WhereFits(filter, afterWhere)
    ensures afterWhere == OrderThen(order, afterOrder) && OrderFits(order, afterOrder)
    ensures afterOrder == LimitThen(limit, afterLimit) && LimitFits(limit, afterLimit)
    ensures afterLimit == EndText(end) && EndFits(end)
    ensures Where(s).value.value == WhereOf(filter) && OrderBy(Where(s).value.rest).value.value == OrderOf(order)
    ensures LimitCount(OrderBy(Where(s).value.rest).value.rest).value.value == LimitOf(limit)
  {
    var g1, g2, g3;
    filter, g1 := WhereFound(gap, s);
    var t := Where(s).value.rest;
    order, g2 := OrderFound(g1, t);
    var u := OrderBy(t).value.rest;
    limit, g3 := LimitFound(g2, u);
    end := EndFound(g3, LimitCount(u).value.rest);
    afterWhere, afterOrder, afterLimit := g1 + t, g2 + u, g3 + LimitCount(u).value.rest;
  }

  lemma ClausesFound(gap: string, s: string, start: StatementForm) returns (f: StatementForm)
    requires Blank(gap) && Clauses(ProjectionsOf(start.projections), TableOf(start.table), s).Ok?
    requires OnlyTerminator(Clauses(ProjectionsOf(start.projections), TableOf(start.table), s).value.rest)
    ensures f.select == start.select && f.projections == start.projections && f.from == start.from
    ensures f.table == start.table && ClausesWritten(f, gap + s)
    ensures Clauses(ProjectionsOf(start.projections), TableOf(start.table), s).value.value == StatementOf(f)
  {
    var joins, stray, behind, between := JoinsFound([], gap, s);
    assert [] + JoinsOf(joins) == JoinsOf(joins);
    var t := Joins([], s).value.rest;
    var filter, order, limit, end, afterWhere, afterOrder, afterLimit := TailFound(between, t);
    f := start.(joins := joins, stray := stray, filter := filter, order := order, limit := limit, end := end);
    ClausesJoin(f, gap + s, behind, between + t, afterWhere, afterOrder, afterLimit);
  }

  /** SELECT, projections, FROM and the table. */
  predicate HeadWritten(text: string, select: Word, projections: ProjectionForm, from: Word, table: TableForm,
                        rest: string)
  {
    var afterFrom := TableThen(table, rest);
    var afterProjections := WordThen(from, afterFrom);
    var afterSelect := ProjectionsThen(projections, afterProjections);
    && text == WordThen(select, afterSelect) && KeywordFits(select, "SELECT", afterSelect)
    && ProjectionsFit(projections, afterProjections) && KeywordFits(from, "FROM", afterFrom) && TableFits(table, rest)
  }

  lemma HeadJoin(text: string, select: Word, afterSelect: string, projections: ProjectionForm, afterProjections: string,
                 from: Word, afterFrom: string, table: TableForm, rest: string)
    requires text == WordThen(select, afterSelect) && KeywordFits(select, "SELECT", afterSelect)
    requires afterSelect == ProjectionsThen(projections, afterProjections)
    requires ProjectionsFit(projections, afterProjections)
    requires afterProjections == WordThen(from, afterFrom) && KeywordFits(from, "FROM", afterFrom)
    requires afterFrom == TableThen(table, rest) && TableFits(table, rest)
    ensures HeadWritten(text, select, projections, from, table, rest)
  {
  }

  /** What is read one after the other. */
  lemma SelectSteps(sql: string)
    requires Select(sql).Ok?
    ensures
      var select := TryKeyword("SELECT", sql);
      && select.value && Projections(select.rest).Ok?
      && var from := TryKeyword("FROM", Projections(select.rest).value.rest);
      && from.value && Table(from.rest).Ok?
      && var table := Table(from.rest).value;
      Select(sql) == Clauses(Projections(select.rest).value.value, table.value, table.rest)
  {
  }

  /** SELECT and the projections. */
  lemma StartFound(sql: string)
    returns (select: Word, t: string, projections: ProjectionForm, gap: string, u: string)
    requires TryKeyword("SELECT", sql).value && Projections(TryKeyword("SELECT", sql).rest).Ok?
    ensures t == TryKeyword("SELECT", sql).rest && sql == WordThen(select, t) && KeywordFits(select, "SELECT", t)
    ensures Blank(gap) && u == Projections(t).value.rest && ProjectionsOf(projections) == Projections(t).value.value
    ensures t == ProjectionsThen(projections, gap + u) && ProjectionsFit(projections, gap + u)
  {
    NothingBefore(sql);
    select := KeywordFound("", sql, "SELECT");
    t := TryKeyword("SELECT", sql).rest;
    projections, gap := ProjectionsFound(t);
    u := Projections(t).value.rest;
  }

  /** FROM and the table. */
  lemma FromFound(before: string, u: string)
    returns (from: Word, v: string, table: TableForm, gap: string, s: string)
    requires Blank(before) && TryKeyword("FROM", u).value && Table(TryKeyword("FROM", u).rest).Ok?
    ensures v == TryKeyword("FROM", u).rest && before + u == WordThen(from, v) && KeywordFits(from, "FROM", v)
    ensures Blank(gap) && s == Table(v).value.rest && TableOf(table) == Table(v).value.value
    ensures v == TableThen(table, gap + s) && TableFits(table, gap + s)
  {
    from := KeywordFound(before, u, "FROM");
    v := TryKeyword("FROM", u).rest;
    table, gap := TableFound(v);
    s := Table(v).value.rest;
  }

  lemma HeadFound(sql: string)
    returns (select: Word, projections: ProjectionForm, from: Word, table: TableForm, gap: string, s: string)
    requires Select(sql).Ok?
    ensures Blank(gap) && HeadWritten(sql, select, projections, from, table, gap + s)
    ensures Select(sql) == Clauses(ProjectionsOf(projections), TableOf(table), s)
  {
    SelectSteps(sql);
    var t, u, between;
    select, t, projections, between, u := StartFound(sql);
    var v;
    from, v, table, gap, s := FromFound(between, u);
    HeadJoin(sql, select, t, projections, between + u, from, v, table, gap + s);
  }

  lemma StatementJoin(f: StatementForm, sql: string, rest: string)
    requires HeadWritten(sql, f.select, f.projections, f.from, f.table, rest) && ClausesWritten(f, rest)
    ensures StatementFits(f) && TextOf(f) == sql
  {
    assert FromTable(f) == TableThen(f.table, rest);
  }

  /** Whatever is parsed is a written form of the statement returned. */
  lemma FormFound(sql: string) returns (f: StatementForm)
    requires Statement(sql).Ok?
    ensures StatementFits(f) && TextOf(f) == sql && StatementOf(f) == Statement(sql).value
  {
    var select, projections, from, table, gap, s := HeadFound(sql);
    var start := StatementForm(select, projections, from, table, [], None, None, None, None, EndForm("", None));
    f := ClausesFound(gap, s, start);
    StatementJoin(f, sql, gap + s);
  }

  /** The accepted texts are the written forms, and the statement is the one written. */
  lemma ParsesExactly(sql: string, stmt: SelectStatement)
    ensures Statement(sql) == Ok(stmt) <==>
      exists f: StatementForm :: StatementFits(f) && TextOf(f) == sql && StatementOf(f) == stmt
  {
    if Statement(sql) == Ok(stmt) {
      var f := FormFound(sql);
    }
    forall f: StatementForm | StatementFits(f)
      ensures Statement(TextOf(f)) == Ok(StatementOf(f))
    {
      FormReads(f);
    }
  }
}
