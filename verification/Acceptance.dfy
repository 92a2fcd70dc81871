// What the analyzer accepts, told by the statement alone: which names must denote a
// column, and which comparisons fit their types.

module Acceptance {
  import opened Common
  import opened Catalog
  import opened Ast
  import opened Semantic

  // ---- What names denote ----

  /** No other of the first k joins behind j has its alias. */
  predicate LastUnder(joins: seq<JoinClause>, j: nat, k: nat)
    requires j < k <= |joins|
  {
    forall m :: j < m < k ==> joins[m].rightTable.alias != joins[j].rightTable.alias
  }

  predicate FirstUnder(joins: seq<JoinClause>, j: nat)
    requires j < |joins|
  {
    forall m :: 0 <= m < j ==> joins[m].rightTable.alias != joins[j].rightTable.alias
  }

  predicate NoneUnder(joins: seq<JoinClause>, alias: string, k: nat)
    requires k <= |joins|
  {
    forall m :: 0 <= m < k ==> joins[m].rightTable.alias != alias
  }

  /** The main table goes by its alias, or by its name when it has none. */
  predicate IsMain(stmt: SelectStatement, alias: string) {
    alias == if stmt.tableAlias == "" then stmt.tableName else stmt.tableAlias
  }

  /** The alias stands for the table of that schema: of several tables under one alias
      the last one. */
  ghost predicate StandsFor(tables: TableMap, stmt: SelectStatement, alias: string, schema: TableSchema)
    requires TablesKnown(tables, stmt)
  {
    || (IsMain(stmt, alias) && NoneUnder(stmt.joins, alias, |stmt.joins|) && schema == tables[stmt.tableName])
    || exists j :: 0 <= j < |stmt.joins| && stmt.joins[j].rightTable.alias == alias &&
                   LastUnder(stmt.joins, j, |stmt.joins|) && schema == tables[stmt.joins[j].rightTable.tableName]
  }

  /** In a comparison it stands for the first one instead, the main table before all. */
  ghost predicate StandsForFirst(tables: TableMap, stmt: SelectStatement, alias: string, schema: TableSchema)
    requires TablesKnown(tables, stmt)
  {
    if alias == stmt.tableAlias || IsMain(stmt, alias) then schema == tables[stmt.tableName]
    else
      exists j :: 0 <= j < |stmt.joins| && stmt.joins[j].rightTable.alias == alias &&
                  FirstUnder(stmt.joins, j) && schema == tables[stmt.joins[j].rightTable.tableName]
  }

  ghost predicate IsColumn(schema: TableSchema, name: string, c: ColumnSchema) {
    schema.HasColumn(name) && schema.Column(name) == c
  }

  /** A qualified name denotes a column of the table its alias stands for. */
  ghost predicate QualifiedDenotes(tables: TableMap, stmt: SelectStatement, name: string, c: ColumnSchema)
    requires TablesKnown(tables, stmt)
  {
    && Qualified(name)
    && exists schema :: StandsFor(tables, stmt, AliasPart(name), schema) && IsColumn(schema, BareName(name), c)
  }

  /** In the lists of a statement an unqualified name must belong to exactly one table. */
  ghost predicate ListedDenotes(tables: TableMap, stmt: SelectStatement, name: string, c: ColumnSchema)
    requires TablesKnown(tables, stmt)
  {
    || QualifiedDenotes(tables, stmt, name, c)
    || (!Qualified(name) && exists alias, schema ::
          StandsFor(tables, stmt, alias, schema) && IsColumn(schema, name, c) && OnlyIn(tables, stmt, name, alias))
  }

  ghost predicate OnlyIn(tables: TableMap, stmt: SelectStatement, name: string, alias: string)
    requires TablesKnown(tables, stmt)
  {
    forall other, schema :: StandsFor(tables, stmt, other, schema) && schema.HasColumn(name) ==> other == alias
  }

  /** In a comparison it belongs to the main table. */
  ghost predicate ComparedDenotes(tables: TableMap, stmt: SelectStatement, name: string, c: ColumnSchema)
    requires TablesKnown(tables, stmt)
  {
    if Qualified(name) then
      exists schema :: StandsForFirst(tables, stmt, AliasPart(name), schema) && IsColumn(schema, BareName(name), c)
    else IsColumn(tables[stmt.tableName], name, c)
  }

  // ---- Which predicates fit ----

  ghost predicate DenotesInt(tables: TableMap, stmt: SelectStatement, name: string)
    requires TablesKnown(tables, stmt)
  {
    exists c :: ComparedDenotes(tables, stmt, name, c) && c.kind == INT64
  }

  /** A string column with room for the literal. */
  ghost predicate DenotesRoomFor(tables: TableMap, stmt: SelectStatement, name: string, s: string)
    requires TablesKnown(tables, stmt)
  {
    exists c :: ComparedDenotes(tables, stmt, name, c) && c.kind == STRING && 0 < c.maxLength && |s| <= c.maxLength
  }

  ghost predicate DenotesAny(tables: TableMap, stmt: SelectStatement, name: string)
    requires TablesKnown(tables, stmt)
  {
    exists c :: ComparedDenotes(tables, stmt, name, c)
  }

  /** An INT64 column with an integer, under any operator; a STRING column, under = and
      !=, with a literal that fits it; columns with each other, and INT64 ones when the
      operator orders them. */
  ghost predicate ComparisonFits(tables: TableMap, stmt: SelectStatement, op: CmpOp, l: Expr, r: Expr)
    requires TablesKnown(tables, stmt)
  {
    match (l, r)
    case (ColumnRef(x), IntLiteral(_)) => DenotesInt(tables, stmt, x)
    case (IntLiteral(_), ColumnRef(x)) => DenotesInt(tables, stmt, x)
    case (ColumnRef(x), StringLiteral(s)) => (op == Equal || op == NotEqual) && DenotesRoomFor(tables, stmt, x, s)
    case (StringLiteral(s), ColumnRef(x)) => (op == Equal || op == NotEqual) && DenotesRoomFor(tables, stmt, x, s)
    case (ColumnRef(x), ColumnRef(y)) =>
      if op == Equal || op == NotEqual then DenotesAny(tables, stmt, x) && DenotesAny(tables, stmt, y)
      else DenotesInt(tables, stmt, x) && DenotesInt(tables, stmt, y)
    case _ => false
  }

  /** Some table of the statement has the column. */
  predicate SomeTableHas(tables: TableMap, stmt: SelectStatement, name: string)
    requires TablesKnown(tables, stmt)
  {
    || tables[stmt.tableName].HasColumn(name)
    || exists j :: 0 <= j < |stmt.joins| && tables[stmt.joins[j].rightTable.tableName].HasColumn(name)
  }

  /** What stands between AND, OR and NOT: a comparison that fits, a literal, a qualified
      name or a column of some table. */
  ghost predicate AtomFits(tables: TableMap, stmt: SelectStatement, e: Expr)
    requires TablesKnown(tables, stmt)
  {
    match e
    case Compare(op, l, r) => ComparisonFits(tables, stmt, op, l, r)
    case ColumnRef(name) => Qualified(name) || SomeTableHas(tables, stmt, name)
    case _ => true
  }

  /** a stands between the ANDs, ORs and NOTs of e. */
  predicate AtomOf(a: Expr, e: Expr) {
    match e
    case And(l, r) => AtomOf(a, l) || AtomOf(a, r)
    case Or(l, r) => AtomOf(a, l) || AtomOf(a, r)
    case Not(l) => AtomOf(a, l)
    case _ => a == e
  }

  /** A join equates two qualified columns of one type. */
  ghost predicate JoinFits(tables: TableMap, stmt: SelectStatement, condition: Expr)
    requires TablesKnown(tables, stmt)
  {
    && condition.Compare? && condition.op == Equal && condition.left.ColumnRef? && condition.right.ColumnRef?
    && exists a, b ::
         && QualifiedDenotes(tables, stmt, condition.left.name, a)
         && QualifiedDenotes(tables, stmt, condition.right.name, b)
         && a.kind == b.kind
  }

  ghost predicate ListFits(tables: TableMap, stmt: SelectStatement, names: seq<string>)
    requires TablesKnown(tables, stmt)
  {
    forall k :: 0 <= k < |names| ==> NameFits(tables, stmt, names[k])
  }

  // ---- The analyzer's scopes are these ----

  lemma {:induction false} ScopeNone(tables: TableMap, stmt: SelectStatement, k: nat, alias: string)
    requires TablesKnown(tables, stmt) && k <= |stmt.joins| && NoneUnder(stmt.joins, alias, k)
    ensures alias in ScopesAfter(tables, stmt, k) <==> IsMain(stmt, alias)
    ensures IsMain(stmt, alias) ==> ScopesAfter(tables, stmt, k)[alias] == tables[stmt.tableName]
  {
    if k > 0 {
      ScopeNone(tables, stmt, k - 1, alias);
    }
  }

  lemma {:induction false} ScopeLast(tables: TableMap, stmt: SelectStatement, k: nat, j: nat)
    requires TablesKnown(tables, stmt) && j < k <= |stmt.joins| && LastUnder(stmt.joins, j, k)
    ensures
      var scopes, table := ScopesAfter(tables, stmt, k), stmt.joins[j].rightTable;
      table.alias in scopes && scopes[table.alias] == tables[table.tableName]
  {
    if j < k - 1 {
      ScopeLast(tables, stmt, k - 1, j);
    }
  }

  lemma {:induction false} LastOf(joins: seq<JoinClause>, alias: string, k: nat)
    requires k <= |joins|
    ensures
      || NoneUnder(joins, alias, k)
      || exists j :: 0 <= j < k && joins[j].rightTable.alias == alias && LastUnder(joins, j, k)
  {
    if k > 0 && joins[k - 1].rightTable.alias == alias {
      assert LastUnder(joins, k - 1, k);
    } else if k > 0 {
      LastOf(joins, alias, k - 1);
      if j :| 0 <= j < k - 1 && joins[j].rightTable.alias == alias && LastUnder(joins, j, k - 1) {
        assert LastUnder(joins, j, k);
      }
    }
  }

  lemma ScopeExactly(tables: TableMap, stmt: SelectStatement, alias: string, schema: TableSchema)
    requires TablesKnown(tables, stmt)
    ensures StandsFor(tables, stmt, alias, schema) <==>
      alias in AllScopes(tables, stmt) && AllScopes(tables, stmt)[alias] == schema
  {
    LastOf(stmt.joins, alias, |stmt.joins|);
    if NoneUnder(stmt.joins, alias, |stmt.joins|) {
      ScopeNone(tables, stmt, |stmt.joins|, alias);
    } else {
      forall j | 0 <= j < |stmt.joins| && stmt.joins[j].rightTable.alias == alias &&
                 LastUnder(stmt.joins, j, |stmt.joins|)
        ensures alias in AllScopes(tables, stmt)
        ensures AllScopes(tables, stmt)[alias] == tables[stmt.joins[j].rightTable.tableName]
      {
        ScopeLast(tables, stmt, |stmt.joins|, j);
      }
    }
  }

  lemma QualifiedExactly(tables: TableMap, stmt: SelectStatement, name: string, c: ColumnSchema)
    requires TablesKnown(tables, stmt) && Qualified(name)
    ensures QualifiedDenotes(tables, stmt, name, c) <==> ResolvesTo(AllScopes(tables, stmt), name, c)
  {
    var scopes, alias := AllScopes(tables, stmt), AliasPart(name);
    if QualifiedDenotes(tables, stmt, name, c) {
      var schema :| StandsFor(tables, stmt, alias, schema) && IsColumn(schema, BareName(name), c);
      ScopeExactly(tables, stmt, alias, schema);
    }
    if alias in scopes {
      ScopeExactly(tables, stmt, alias, scopes[alias]);
    }
  }

  lemma OnlyInExactly(tables: TableMap, stmt: SelectStatement, name: string, alias: string)
    requires TablesKnown(tables, stmt)
    ensures OnlyIn(tables, stmt, name, alias) <==> Unrivalled(AllScopes(tables, stmt), alias, name)
  {
    var scopes := AllScopes(tables, stmt);
    if OnlyIn(tables, stmt, name, alias) {
      forall b | b in scopes && scopes[b].HasColumn(name)
        ensures b == alias
      {
        ScopeExactly(tables, stmt, b, scopes[b]);
      }
    }
    if Unrivalled(scopes, alias, name) {
      forall other, schema | StandsFor(tables, stmt, other, schema) && schema.HasColumn(name)
        ensures other == alias
      {
        ScopeExactly(tables, stmt, other, schema);
      }
    }
  }

  lemma BareExactly(tables: TableMap, stmt: SelectStatement, name: string, c: ColumnSchema)
    requires TablesKnown(tables, stmt) && !Qualified(name)
    ensures ListedDenotes(tables, stmt, name, c) <==> ResolvesTo(AllScopes(tables, stmt), name, c)
  {
    var scopes := AllScopes(tables, stmt);
    if ListedDenotes(tables, stmt, name, c) {
      var alias, schema :|
        StandsFor(tables, stmt, alias, schema) && IsColumn(schema, name, c) && OnlyIn(tables, stmt, name, alias);
      ScopeExactly(tables, stmt, alias, schema);
      OnlyInExactly(tables, stmt, name, alias);
    }
    if ResolvesTo(scopes, name, c) {
      var a :| a in scopes && scopes[a].HasColumn(name) && Unrivalled(scopes, a, name) && c == scopes[a].Column(name);
      ScopeExactly(tables, stmt, a, scopes[a]);
      OnlyInExactly(tables, stmt, name, a);
      assert IsColumn(scopes[a], name, c);
    }
  }

  lemma ListedExactly(tables: TableMap, stmt: SelectStatement, name: string, c: ColumnSchema)
    requires TablesKnown(tables, stmt)
    ensures ListedDenotes(tables, stmt, name, c) <==> ResolvesTo(AllScopes(tables, stmt), name, c)
  {
    if Qualified(name) {
      QualifiedExactly(tables, stmt, name, c);
    } else {
      BareExactly(tables, stmt, name, c);
    }
  }

  lemma ResolvesSomewhere(scopes: Scopes, name: string)
    ensures Resolves(scopes, name) <==> exists c :: ResolvesTo(scopes, name, c)
  {
    if Resolves(scopes, name) {
      if Qualified(name) {
        assert ResolvesTo(scopes, name, scopes[AliasPart(name)].Column(BareName(name)));
      } else {
        var a :| a in scopes && scopes[a].HasColumn(name) && Unrivalled(scopes, a, name);
        assert ResolvesTo(scopes, name, scopes[a].Column(name));
      }
    }
  }

  ghost predicate NameFits(tables: TableMap, stmt: SelectStatement, name: string)
    requires TablesKnown(tables, stmt)
  {
    exists c :: ListedDenotes(tables, stmt, name, c)
  }

  lemma NameExactly(tables: TableMap, stmt: SelectStatement, name: string)
    requires TablesKnown(tables, stmt)
    ensures NameFits(tables, stmt, name) <==> Resolves(AllScopes(tables, stmt), name)
  {
    ResolvesSomewhere(AllScopes(tables, stmt), name);
    if NameFits(tables, stmt, name) {
      var c :| ListedDenotes(tables, stmt, name, c);
      ListedExactly(tables, stmt, name, c);
    }
    if Resolves(AllScopes(tables, stmt), name) {
      var c :| ResolvesTo(AllScopes(tables, stmt), name, c);
      ListedExactly(tables, stmt, name, c);
    }
  }

  lemma ListExactly(tables: TableMap, stmt: SelectStatement, names: seq<string>)
    requires TablesKnown(tables, stmt)
    ensures ListFits(tables, stmt, names) <==>
      forall k :: 0 <= k < |names| ==> Resolves(AllScopes(tables, stmt), names[k])
  {
    forall k | 0 <= k < |names|
      ensures NameFits(tables, stmt, names[k]) <==> Resolves(AllScopes(tables, stmt), names[k])
    {
      NameExactly(tables, stmt, names[k]);
    }
  }

  // ---- Comparisons ----

  lemma {:induction false} FirstJoinExactly(joins: seq<JoinClause>, alias: string)
    ensures FirstJoin(joins, alias).None? <==> NoneUnder(joins, alias, |joins|)
    ensures FirstJoin(joins, alias).Some? ==> exists j ::
      && 0 <= j < |joins| && joins[j].rightTable.alias == alias && FirstUnder(joins, j)
      && joins[j] == FirstJoin(joins, alias).value
  {
    if joins != [] && joins[0].rightTable.alias == alias {
      assert FirstUnder(joins, 0);
    } else if joins != [] {
      FirstJoinExactly(joins[1..], alias);
      if j :| 0 <= j < |joins[1..]| && joins[1..][j].rightTable.alias == alias && FirstUnder(joins[1..], j) &&
              joins[1..][j] == FirstJoin(joins[1..], alias).value {
        FirstLater(joins, j);
      }
      assert forall m :: 1 <= m < |joins| ==> joins[m] == joins[1..][m - 1];
    }
  }

  lemma FirstLater(joins: seq<JoinClause>, j: nat)
    requires joins != [] && j < |joins[1..]| && FirstUnder(joins[1..], j)
    requires joins[0].rightTable.alias != joins[1..][j].rightTable.alias
    ensures joins[j + 1] == joins[1..][j] && FirstUnder(joins, j + 1)
  {
    forall m | 0 <= m < j + 1
      ensures joins[m].rightTable.alias != joins[j + 1].rightTable.alias
    {
      if m > 0 {
        assert joins[m] == joins[1..][m - 1];
      }
    }
  }

  lemma FirstUnique(joins: seq<JoinClause>, i: nat, j: nat)
    requires i < |joins| && j < |joins| && FirstUnder(joins, i) && FirstUnder(joins, j)
    requires joins[i].rightTable.alias == joins[j].rightTable.alias
    ensures i == j
  {
  }

  lemma FirstExactly(tables: TableMap, stmt: SelectStatement, alias: string, schema: TableSchema)
    requires TablesKnown(tables, stmt) && alias != stmt.tableAlias && !IsMain(stmt, alias)
    ensures StandsForFirst(tables, stmt, alias, schema) <==>
      var join := FirstJoin(stmt.joins, alias);
      join.Some? && schema == tables[join.value.rightTable.tableName]
  {
    FirstJoinExactly(stmt.joins, alias);
    if join :| FirstJoin(stmt.joins, alias) == Some(join) {
      var i :| 0 <= i < |stmt.joins| && stmt.joins[i].rightTable.alias == alias && FirstUnder(stmt.joins, i) &&
               stmt.joins[i] == join;
      forall j | 0 <= j < |stmt.joins| && stmt.joins[j].rightTable.alias == alias && FirstUnder(stmt.joins, j)
        ensures j == i
      {
        FirstUnique(stmt.joins, i, j);
      }
    }
  }

  lemma ComparedExactly(tables: TableMap, stmt: SelectStatement, name: string, c: ColumnSchema)
    requires TablesKnown(tables, stmt)
    ensures ComparedDenotes(tables, stmt, name, c) <==> ComparedColumn(tables, stmt, name) == Some(c)
  {
    if Qualified(name) {
      var alias := AliasPart(name);
      if alias == stmt.tableAlias || IsMain(stmt, alias) {
        assert StandsForFirst(tables, stmt, alias, tables[stmt.tableName]);
      } else {
        forall schema
          ensures StandsForFirst(tables, stmt, alias, schema) <==>
            var join := FirstJoin(stmt.joins, alias);
            join.Some? && schema == tables[join.value.rightTable.tableName]
        {
          FirstExactly(tables, stmt, alias, schema);
        }
        if join :| FirstJoin(stmt.joins, alias) == Some(join) {
          assert StandsForFirst(tables, stmt, alias, tables[join.rightTable.tableName]);
        }
      }
    }
  }

  lemma ColumnsExactly(tables: TableMap, stmt: SelectStatement, name: string)
    requires TablesKnown(tables, stmt)
    ensures DenotesAny(tables, stmt, name) <==> ComparedColumn(tables, stmt, name).Some?
    ensures DenotesInt(tables, stmt, name) <==> HasKind(ComparedColumn(tables, stmt, name), INT64)
    ensures forall s :: DenotesRoomFor(tables, stmt, name, s) <==>
      var c := ComparedColumn(tables, stmt, name);
      HasKind(c, STRING) && c.value.maxLength != 0 && |s| <= c.value.maxLength
  {
    forall c
      ensures ComparedDenotes(tables, stmt, name, c) <==> ComparedColumn(tables, stmt, name) == Some(c)
    {
      ComparedExactly(tables, stmt, name, c);
    }
  }

  lemma ComparisonExactly(tables: TableMap, stmt: SelectStatement, op: CmpOp, l: Expr, r: Expr)
    requires TablesKnown(tables, stmt)
    ensures ComparisonAccepted(tables, stmt, op, l, r) <==> ComparisonFits(tables, stmt, op, l, r)
  {
    if l.ColumnRef? {
      ColumnsExactly(tables, stmt, l.name);
    }
    if r.ColumnRef? {
      ColumnsExactly(tables, stmt, r.name);
    }
  }

  lemma OneAtom(e: Expr)
    requires !e.And? && !e.Or? && !e.Not?
    ensures forall a :: AtomOf(a, e) <==> a == e
  {
  }

  lemma AtomExactly(tables: TableMap, stmt: SelectStatement, e: Expr)
    requires TablesKnown(tables, stmt) && !e.And? && !e.Or? && !e.Not?
    ensures ExprAccepted(tables, stmt, e) <==> AtomFits(tables, stmt, e)
  {
    if e.Compare? {
      ComparisonExactly(tables, stmt, e.op, e.left, e.right);
    }
  }

  lemma {:induction false} AtomsExactly(tables: TableMap, stmt: SelectStatement, e: Expr)
    requires TablesKnown(tables, stmt)
    ensures ExprAccepted(tables, stmt, e) <==> forall a :: AtomOf(a, e) ==> AtomFits(tables, stmt, a)
  {
    match e
    case And(l, r) => AtomsExactly(tables, stmt, l); AtomsExactly(tables, stmt, r);
    case Or(l, r) => AtomsExactly(tables, stmt, l); AtomsExactly(tables, stmt, r);
    case Not(l) => AtomsExactly(tables, stmt, l);
    case _ =>
      OneAtom(e);
      AtomExactly(tables, stmt, e);
  }

  lemma JoinExactly(tables: TableMap, stmt: SelectStatement, condition: Expr)
    requires TablesKnown(tables, stmt)
    ensures JoinAccepted(AllScopes(tables, stmt), condition) <==> JoinFits(tables, stmt, condition)
  {
    if condition.Compare? && condition.left.ColumnRef? && condition.right.ColumnRef? {
      var scopes, x, y := AllScopes(tables, stmt), condition.left.name, condition.right.name;
      ResolvesSomewhere(scopes, x);
      ResolvesSomewhere(scopes, y);
      forall c
        ensures Qualified(x) ==> (QualifiedDenotes(tables, stmt, x, c) <==> ResolvesTo(scopes, x, c))
        ensures Qualified(y) ==> (QualifiedDenotes(tables, stmt, y, c) <==> ResolvesTo(scopes, y, c))
      {
        if Qualified(x) {
          QualifiedExactly(tables, stmt, x, c);
        }
        if Qualified(y) {
          QualifiedExactly(tables, stmt, y, c);
        }
      }
    }
  }

  // ---- Statements ----

  /** A statement that fits its tables. */
  ghost predicate StatementFits(tables: TableMap, stmt: SelectStatement)
    requires TablesKnown(tables, stmt)
  {
    && ListFits(tables, stmt, stmt.projections) && ListFits(tables, stmt, OrderNames(stmt.orderBy))
    && (forall j :: 0 <= j < |stmt.joins| ==> JoinFits(tables, stmt, stmt.joins[j].condition))
    && (stmt.whereClause.Some? ==> forall a :: AtomOf(a, stmt.whereClause.value) ==> AtomFits(tables, stmt, a))
    && stmt.limitCount >= -1
  }

  /** The analyzer accepts exactly the statements that fit their tables. */
  lemma AcceptedExactly(tables: TableMap, stmt: SelectStatement)
    ensures StatementAccepted(tables, stmt) <==>
      stmt.tableName != "" && TablesKnown(tables, stmt) && StatementFits(tables, stmt)
  {
    if stmt.tableName != "" && TablesKnown(tables, stmt) {
      FitsExactly(tables, stmt);
    }
  }

  lemma FitsExactly(tables: TableMap, stmt: SelectStatement)
    requires TablesKnown(tables, stmt) && stmt.tableName != ""
    ensures StatementAccepted(tables, stmt) <==> StatementFits(tables, stmt)
  {
    ListExactly(tables, stmt, stmt.projections);
    ListExactly(tables, stmt, OrderNames(stmt.orderBy));
    forall j | 0 <= j < |stmt.joins|
      ensures JoinAccepted(AllScopes(tables, stmt), stmt.joins[j].condition) <==>
        JoinFits(tables, stmt, stmt.joins[j].condition)
    {
      JoinExactly(tables, stmt, stmt.joins[j].condition);
    }
    if stmt.whereClause.Some? {
      AtomsExactly(tables, stmt, stmt.whereClause.value);
    }
  }
}
