// The encrypted join against the plaintext one: filtering and projecting the
// left-major sequence of all pairs of rows.

module JoinQuery {
  import opened Common
  import opened Catalog
  import opened Ast
  import opened PrimeField
  import opened Masks
  import opened Circuit
  import opened Package
  import opened Encryptor
  import opened Rebuild
  import opened Plain
  import opened Compiler
  import opened Execution
  import opened TableQuery
  import opened RowDecode
  import opened JoinExecution
  import opened JoinColumns

  // ---- Joined rows ----

  function SideRow(pkg: QueryPackage, name: string, l: Row, r: Row): Row {
    if OnLeft(pkg, name) then l else r
  }

  /** A pair of rows under the names a query uses: each name reads the row of its
      side, at its bare name. */
  function JoinedRow(pkg: QueryPackage, names: set<string>, l: Row, r: Row): Row {
    map q | q in names && BareName(q) in SideRow(pkg, q, l, r) :: SideRow(pkg, q, l, r)[BareName(q)]
  }

  lemma JoinedReads(pkg: QueryPackage, names: set<string>, l: Row, r: Row, q: string)
    requires q in names
    ensures IntAt(JoinedRow(pkg, names, l, r), q) == IntAt(SideRow(pkg, q, l, r), BareName(q))
    ensures StringAt(JoinedRow(pkg, names, l, r), q) == StringAt(SideRow(pkg, q, l, r), BareName(q))
  {
  }

  function ColumnNames(e: Expr): set<string> {
    match e
    case ColumnRef(name) => {name}
    case IntLiteral(_) => {}
    case StringLiteral(_) => {}
    case Not(l) => ColumnNames(l)
    case Compare(_, l, r) => ColumnNames(l) + ColumnNames(r)
    case And(l, r) => ColumnNames(l) + ColumnNames(r)
    case Or(l, r) => ColumnNames(l) + ColumnNames(r)
  }

  // ---- Which join queries ----

  /** A qualified integer column of one of the two tables. */
  predicate PairInt(pkg: QueryPackage, tables: TableMap, name: string) {
    && Qualified(name)
    && (AliasPart(name) == pkg.tableAlias || AliasPart(name) == pkg.joinedTableAlias)
    && SideKnown(pkg, tables, name) && SideColumn(pkg, tables, name).kind != STRING
  }

  predicate PairTerm(pkg: QueryPackage, tables: TableMap, e: Expr) {
    e.IntLiteral? || (e.ColumnRef? && PairInt(pkg, tables, e.name))
  }

  /** Predicates over qualified integer columns and integer literals. */
  predicate PairTyped(pkg: QueryPackage, tables: TableMap, e: Expr) {
    match e
    case ColumnRef(_) => false
    case IntLiteral(_) => false
    case StringLiteral(_) => false
    case Compare(_, l, r) => PairTerm(pkg, tables, l) && PairTerm(pkg, tables, r)
    case And(l, r) => PairTyped(pkg, tables, l) && PairTyped(pkg, tables, r)
    case Or(l, r) => PairTyped(pkg, tables, l) && PairTyped(pkg, tables, r)
    case Not(l) => PairTyped(pkg, tables, l)
  }

  /** What can be evaluated on a pair, of any shape: qualified integer columns and
      integer literals. */
  predicate PairRunnable(pkg: QueryPackage, tables: TableMap, e: Expr) {
    match e
    case ColumnRef(name) => PairInt(pkg, tables, name)
    case IntLiteral(_) => true
    case StringLiteral(_) => false
    case Not(l) => PairRunnable(pkg, tables, l)
    case Compare(_, l, r) => PairRunnable(pkg, tables, l) && PairRunnable(pkg, tables, r)
    case And(l, r) => PairRunnable(pkg, tables, l) && PairRunnable(pkg, tables, r)
    case Or(l, r) => PairRunnable(pkg, tables, l) && PairRunnable(pkg, tables, r)
  }

  lemma {:induction false} TypedPairRunnable(pkg: QueryPackage, tables: TableMap, e: Expr)
    requires PairTyped(pkg, tables, e)
    ensures PairRunnable(pkg, tables, e)
  {
    match e
    case Compare(_, l, r) =>
    case Not(l) => TypedPairRunnable(pkg, tables, l);
    case And(l, r) => TypedPairRunnable(pkg, tables, l); TypedPairRunnable(pkg, tables, r);
    case Or(l, r) => TypedPairRunnable(pkg, tables, l); TypedPairRunnable(pkg, tables, r);
  }

  lemma {:induction false} PairCompiles(pkg: QueryPackage, tables: TableMap, e: Expr, schema: TableSchema)
    requires PairRunnable(pkg, tables, e)
    ensures Compilable(e, schema) && WidthsPositive(e, schema)
  {
    if e.Not? {
      PairCompiles(pkg, tables, e.left, schema);
    } else if IsBinary(e) {
      PairCompiles(pkg, tables, e.left, schema);
      PairCompiles(pkg, tables, e.right, schema);
    }
  }

  lemma {:induction false} RunnableNames(pkg: QueryPackage, tables: TableMap, e: Expr, q: string)
    requires PairRunnable(pkg, tables, e) && q in ColumnNames(e)
    ensures PairInt(pkg, tables, q)
  {
    if e.Not? {
      RunnableNames(pkg, tables, e.left, q);
    } else if !e.ColumnRef? {
      if q in ColumnNames(e.left) {
        RunnableNames(pkg, tables, e.left, q);
      } else {
        RunnableNames(pkg, tables, e.right, q);
      }
    }
  }

  function OnEquality(pkg: QueryPackage): Expr {
    Compare(Equal, ColumnRef(pkg.joinLeftColumn), ColumnRef(pkg.joinRightColumn))
  }

  /** What a pair must satisfy: key equality and WHERE. */
  function PairCondition(pkg: QueryPackage, where: Option<Expr>): Expr {
    if where.None? then OnEquality(pkg) else And(OnEquality(pkg), where.value)
  }

  /** A column of the main table, possibly unqualified, or a qualified one of the
      joined table; string columns have some width. */
  predicate PairProjected(pkg: QueryPackage, tables: TableMap, name: string) {
    && (OnLeft(pkg, name) || AliasPart(name) == pkg.joinedTableAlias)
    && SideKnown(pkg, tables, name)
    && (SideColumn(pkg, tables, name).kind == STRING ==> SideColumn(pkg, tables, name).maxLength > 0)
  }

  ghost predicate JoinPlanned(pkg: QueryPackage, tables: TableMap, where: Option<Expr>) {
    && AliasesApart(pkg)
    && pkg.tableName in tables && DistinctNames(tables[pkg.tableName].columns)
    && pkg.joinedTableName in tables && DistinctNames(tables[pkg.joinedTableName].columns)
    && PairInt(pkg, tables, pkg.joinLeftColumn) && AliasPart(pkg.joinLeftColumn) == pkg.tableAlias
    && PairInt(pkg, tables, pkg.joinRightColumn) && AliasPart(pkg.joinRightColumn) == pkg.joinedTableAlias
    && (where.Some? ==> PairTyped(pkg, tables, where.value))
    && forall k :: 0 <= k < |pkg.projectColumns| ==> PairProjected(pkg, tables, pkg.projectColumns[k])
  }

  /** Of that, what executing the join needs. */
  ghost predicate JoinScannable(pkg: QueryPackage, tables: TableMap, where: Option<Expr>) {
    JoinPlanned(pkg, tables, None) && (where.Some? ==> PairRunnable(pkg, tables, where.value))
  }

  lemma PlannedScannable(pkg: QueryPackage, tables: TableMap, where: Option<Expr>)
    requires JoinPlanned(pkg, tables, where)
    ensures JoinScannable(pkg, tables, where)
  {
    if where.Some? {
      TypedPairRunnable(pkg, tables, where.value);
    }
  }

  function QueryNames(pkg: QueryPackage, where: Option<Expr>): set<string> {
    ColumnNames(PairCondition(pkg, where)) + set k | 0 <= k < |pkg.projectColumns| :: pkg.projectColumns[k]
  }

  /** Chunks of one row each on both sides. */
  ghost predicate PairStored(p: OddPrime, pkg: QueryPackage, tables: TableMap, left: StoredChunk, right: StoredChunk,
                             l: Row, r: Row)
    requires pkg.tableName in tables && pkg.joinedTableName in tables
  {
    Stores(p, tables[pkg.tableName], left, [l]) && Stores(p, tables[pkg.joinedTableName], right, [r])
  }

  // ---- The columns of a pair hold the joined row ----

  lemma StoredAliasable(p: OddPrime, schema: TableSchema, chunk: StoredChunk, row: Row)
    requires Stores(p, schema, chunk, [row]) && DistinctNames(schema.columns)
    ensures AllAliasable(schema.columns, chunk)
  {
    forall j | 0 <= j < |schema.columns|
      ensures ColumnStored(schema.columns[j], chunk.columns)
    {
      FirstColumnAt(schema.columns, schema.columns[j].name, j);
      assert schema.HasColumn(schema.columns[j].name);
      SlotsStored(p, chunk.columns, [row], schema.columns[j]);
    }
  }

  lemma PairIsAliasable(p: OddPrime, pkg: QueryPackage, tables: TableMap, where: Option<Expr>, left: StoredChunk,
                        right: StoredChunk, l: Row, r: Row)
    requires JoinPlanned(pkg, tables, where) && PairStored(p, pkg, tables, left, right, l, r)
    ensures PairAliasable(pkg, tables, left, right)
  {
    StoredAliasable(p, tables[pkg.tableName], left, l);
    StoredAliasable(p, tables[pkg.joinedTableName], right, r);
  }

  lemma TableIntHeld(p: OddPrime, schema: TableSchema, base: Columns, alias: string, chunk: StoredChunk, row: Row,
                     name: string)
    requires Stores(p, schema, chunk, [row]) && DistinctNames(schema.columns) && AllAliasable(schema.columns, chunk)
    requires DotFree(alias) && schema.HasColumn(name) && schema.Column(name).kind != STRING
    ensures
      var columns := WithTable(base, schema.columns, alias, chunk, |schema.columns|);
      var key := Plain(Key(alias, name));
      key in columns && 1 <= |columns[key].slots| && columns[key].slots[0] == IntAt(row, name) % p
  {
    var j :| 0 <= j < |schema.columns| && schema.columns[j] == schema.Column(name);
    WithTableHolds(base, schema.columns, alias, chunk, |schema.columns|, j);
    assert ColumnSlots(p, chunk.columns, [row], schema.Column(name));
    assert [row][0] == row;
  }

  lemma PairIntHeld(p: OddPrime, pkg: QueryPackage, tables: TableMap, where: Option<Expr>, left: StoredChunk,
                    right: StoredChunk, l: Row, r: Row, names: set<string>, q: string)
    requires JoinPlanned(pkg, tables, where) && PairStored(p, pkg, tables, left, right, l, r)
    requires PairAliasable(pkg, tables, left, right) && PairInt(pkg, tables, q) && q in names
    ensures IntHeld(p, PairColumns(pkg, tables, left, right), 1, 0, q, JoinedRow(pkg, names, l, r))
    ensures OnLeft(pkg, q) ==> IntHeld(p, LeftColumns(pkg, tables, left), 1, 0, q, JoinedRow(pkg, names, l, r))
  {
    JoinedReads(pkg, names, l, r, q);
    DottedName(q);
    if OnLeft(pkg, q) {
      TableIntHeld(p, tables[pkg.tableName], map[], pkg.tableAlias, left, l, BareName(q));
      LeftIncluded(pkg, tables, left, right);
    } else {
      TableIntHeld(p, tables[pkg.joinedTableName], LeftColumns(pkg, tables, left), pkg.joinedTableAlias, right, r,
                   BareName(q));
    }
  }

  lemma TypedNames(pkg: QueryPackage, tables: TableMap, e: Expr, q: string)
    requires PairTyped(pkg, tables, e) && q in ColumnNames(e)
    ensures PairInt(pkg, tables, q)
  {
    TypedPairRunnable(pkg, tables, e);
    RunnableNames(pkg, tables, e, q);
  }

  lemma {:induction false} HeldByNames(p: OddPrime, pkg: QueryPackage, tables: TableMap, e: Expr, schema: TableSchema,
                                       columns: Columns, row: Row)
    requires PairTyped(pkg, tables, e)
    requires forall q :: q in ColumnNames(e) ==> IntHeld(p, columns, 1, 0, q, row)
    ensures IsPredicate(e, schema) && RowHeld(p, e, schema, columns, 1, 0, row)
  {
    match e
    case Compare(_, l, r) =>
      assert l.ColumnRef? ==> l.name in ColumnNames(e);
      assert r.ColumnRef? ==> r.name in ColumnNames(e);
    case Not(l) => HeldByNames(p, pkg, tables, l, schema, columns, row);
    case And(l, r) =>
      HeldByNames(p, pkg, tables, l, schema, columns, row);
      HeldByNames(p, pkg, tables, r, schema, columns, row);
    case Or(l, r) =>
      HeldByNames(p, pkg, tables, l, schema, columns, row);
      HeldByNames(p, pkg, tables, r, schema, columns, row);
  }

  /** Without string comparisons nothing depends on the schema. */
  lemma {:induction false} SchemaIrrelevant(p: OddPrime, slotCount: nat, pkg: QueryPackage, tables: TableMap, e: Expr,
                                            a: TableSchema, b: TableSchema)
    requires PairTyped(pkg, tables, e)
    ensures IsPredicate(e, a) && Compilable(e, a) && WidthsPositive(e, a)
    ensures IsPredicate(e, b) && Compilable(e, b) && WidthsPositive(e, b)
    ensures Translate(p, slotCount, e, a) == Translate(p, slotCount, e, b)
  {
    if e.Not? {
      SchemaIrrelevant(p, slotCount, pkg, tables, e.left, a, b);
    } else if e.And? || e.Or? {
      SchemaIrrelevant(p, slotCount, pkg, tables, e.left, a, b);
      SchemaIrrelevant(p, slotCount, pkg, tables, e.right, a, b);
    }
  }

  lemma ConditionTyped(pkg: QueryPackage, tables: TableMap, where: Option<Expr>, schema: TableSchema)
    requires JoinPlanned(pkg, tables, where)
    ensures PairTyped(pkg, tables, PairCondition(pkg, where)) && IsPredicate(PairCondition(pkg, where), schema)
  {
    if where.Some? {
      TypedIsPair(pkg, tables, where.value, schema);
    }
  }

  lemma TypedIsPair(pkg: QueryPackage, tables: TableMap, e: Expr, schema: TableSchema)
    requires PairTyped(pkg, tables, e)
    ensures IsPredicate(e, schema)
  {
    SchemaIrrelevant(3, 0, pkg, tables, e, schema, schema);
  }

  /** The server's filter of a join: the translated WHERE, over the main schema. */
  ghost predicate JoinFilter(p: OddPrime, slotCount: nat, pkg: QueryPackage, tables: TableMap, where: Option<Expr>,
                             filter: Option<Circuit>)
    requires pkg.tableName in tables
  {
    FilterFor(p, slotCount, where, tables[pkg.tableName], filter)
  }

  lemma OnCircuit(p: OddPrime, slotCount: nat, pkg: QueryPackage, schema: TableSchema)
    ensures Compilable(OnEquality(pkg), schema) && WidthsPositive(OnEquality(pkg), schema)
    ensures Translate(p, slotCount, OnEquality(pkg), schema) == KeyTest(pkg)
  {
    var l, r := ColumnRef(pkg.joinLeftColumn), ColumnRef(pkg.joinRightColumn);
    assert Translate(p, slotCount, l, schema) == Column(Plain(pkg.joinLeftColumn));
    assert Translate(p, slotCount, r, schema) == Column(Plain(pkg.joinRightColumn));
  }

  lemma AndCircuit(p: OddPrime, slotCount: nat, l: Expr, r: Expr, schema: TableSchema)
    requires Compilable(l, schema) && WidthsPositive(l, schema) && Compilable(r, schema) && WidthsPositive(r, schema)
    ensures Compilable(And(l, r), schema) && WidthsPositive(And(l, r), schema)
    ensures Translate(p, slotCount, And(l, r), schema) ==
      Conj(Translate(p, slotCount, l, schema), Translate(p, slotCount, r, schema))
  {
  }

  /** Key test and filter together are the circuit of the pair condition. */
  lemma ConditionCircuit(p: OddPrime, slotCount: nat, pkg: QueryPackage, tables: TableMap, where: Option<Expr>,
                         filter: Option<Circuit>, schema: TableSchema)
    requires JoinPlanned(pkg, tables, where) && JoinFilter(p, slotCount, pkg, tables, where, filter)
    ensures Compilable(PairCondition(pkg, where), schema) && WidthsPositive(PairCondition(pkg, where), schema)
    ensures PairCircuit(pkg, filter) == Translate(p, slotCount, PairCondition(pkg, where), schema)
  {
    OnCircuit(p, slotCount, pkg, schema);
    if where.Some? {
      SchemaIrrelevant(p, slotCount, pkg, tables, where.value, tables[pkg.tableName], schema);
      AndCircuit(p, slotCount, OnEquality(pkg), where.value, schema);
    }
  }

  lemma PairDepth(p: OddPrime, pkg: QueryPackage, c: Circuit)
    ensures Depth(p, KeyTest(pkg)) == CeilLog2(p - 1)
    ensures Depth(p, PairCircuit(pkg, Some(c))) == 1 + Max(CeilLog2(p - 1), Depth(p, c))
  {
    assert Depth(p, Column(Plain(pkg.joinLeftColumn))) == 0 && Depth(p, Column(Plain(pkg.joinRightColumn))) == 0;
    assert Depth(p, KeyTest(pkg)) == CeilLog2(p - 1);
  }

  /** Multiplying the key mask in costs a join one more level: at p = 257 the mask of
      a pair fits exactly when at most three levels of its WHERE lie above the
      comparisons. */
  lemma JoinBudget(p: OddPrime, slotCount: nat, pkg: QueryPackage, where: Expr, schema: TableSchema)
    requires IsPredicate(where, schema) && p == 257
    ensures Compilable(where, schema) && WidthsPositive(where, schema)
    ensures
      var filter := Some(Translate(p, slotCount, where, schema));
      Depth(p, PairCircuit(pkg, filter)) <= BUDGET <==> LevelsAbove(where, schema) <= 3
    ensures Depth(p, PairCircuit(pkg, None)) <= BUDGET
  {
    CompiledDepth(p, slotCount, where, schema);
    PairDepth(p, pkg, Translate(p, slotCount, where, schema));
    EightSquarings();
  }

  // ---- The mask of a pair ----

  ghost predicate PairMeant(p: OddPrime, slotCount: nat, pkg: QueryPackage, tables: TableMap, where: Option<Expr>,
                            filter: Option<Circuit>, left: StoredChunk, right: StoredChunk, l: Row, r: Row)
  {
    && slotCount >= 1
    && JoinPlanned(pkg, tables, where)
    && PairStored(p, pkg, tables, left, right, l, r)
    && JoinFilter(p, slotCount, pkg, tables, where, filter)
    && (where.Some? && !UsesJoined(pkg) ==> forall q :: q in ColumnNames(where.value) ==> OnLeft(pkg, q))
  }

  lemma NamesOfCondition(pkg: QueryPackage, where: Option<Expr>, q: string)
    requires q in ColumnNames(PairCondition(pkg, where))
    ensures q in QueryNames(pkg, where)
  {
  }

  lemma ConditionHeld(p: OddPrime, slotCount: nat, pkg: QueryPackage, tables: TableMap, where: Option<Expr>,
                      filter: Option<Circuit>, left: StoredChunk, right: StoredChunk, l: Row, r: Row,
                      schema: TableSchema)
    requires PairMeant(p, slotCount, pkg, tables, where, filter, left, right, l, r)
    requires PairAliasable(pkg, tables, left, right)
    ensures
      var e, row := PairCondition(pkg, where), JoinedRow(pkg, QueryNames(pkg, where), l, r);
      IsPredicate(e, schema) && RowHeld(p, e, schema, PairColumns(pkg, tables, left, right), 1, 0, row)
  {
    var e, names := PairCondition(pkg, where), QueryNames(pkg, where);
    ConditionTyped(pkg, tables, where, schema);
    forall q | q in ColumnNames(e)
      ensures IntHeld(p, PairColumns(pkg, tables, left, right), 1, 0, q, JoinedRow(pkg, names, l, r))
    {
      TypedNames(pkg, tables, e, q);
      NamesOfCondition(pkg, where, q);
      PairIntHeld(p, pkg, tables, where, left, right, l, r, names, q);
    }
    HeldByNames(p, pkg, tables, e, schema, PairColumns(pkg, tables, left, right), JoinedRow(pkg, names, l, r));
  }

  /** Evaluated on the pair, key test and filter are a mask of the plaintext
      condition on the joined row. */
  lemma ConditionMask(p: OddPrime, slotCount: nat, pkg: QueryPackage, tables: TableMap, where: Option<Expr>,
                      filter: Option<Circuit>, left: StoredChunk, right: StoredChunk, l: Row, r: Row,
                      schema: TableSchema)
    requires PairMeant(p, slotCount, pkg, tables, where, filter, left, right, l, r)
    requires PairAliasable(pkg, tables, left, right)
    ensures
      var e, row := PairCondition(pkg, where), JoinedRow(pkg, QueryNames(pkg, where), l, r);
      && IsPredicate(e, schema)
      && Yields(p, PairCircuit(pkg, filter), PairColumns(pkg, tables, left, right), 1, 0,
                Bit(ZpEval(p, e, schema, row)))
  {
    var e, row := PairCondition(pkg, where), JoinedRow(pkg, QueryNames(pkg, where), l, r);
    ConditionHeld(p, slotCount, pkg, tables, where, filter, left, right, l, r, schema);
    ConditionCircuit(p, slotCount, pkg, tables, where, filter, schema);
    CircuitComputesZp(p, slotCount, e, schema, PairColumns(pkg, tables, left, right), 1, 0, row);
  }

  lemma LeftEvaluable(p: OddPrime, slotCount: nat, pkg: QueryPackage, tables: TableMap, where: Option<Expr>,
                      filter: Option<Circuit>, left: StoredChunk, right: StoredChunk, l: Row, r: Row)
    requires PairMeant(p, slotCount, pkg, tables, where, filter, left, right, l, r)
    requires PairAliasable(pkg, tables, left, right) && where.Some? && !UsesJoined(pkg)
    ensures filter.Some? && Evaluable(filter.value, LeftColumns(pkg, tables, left), 1)
  {
    var e, names, schema := where.value, QueryNames(pkg, where), tables[pkg.tableName];
    var row := JoinedRow(pkg, names, l, r);
    forall q | q in ColumnNames(e)
      ensures IntHeld(p, LeftColumns(pkg, tables, left), 1, 0, q, row)
    {
      TypedNames(pkg, tables, e, q);
      NamesOfCondition(pkg, where, q);
      PairIntHeld(p, pkg, tables, where, left, right, l, r, names, q);
    }
    HeldByNames(p, pkg, tables, e, schema, LeftColumns(pkg, tables, left), row);
    CircuitComputesZp(p, slotCount, e, schema, LeftColumns(pkg, tables, left), 1, 0, row);
  }

  lemma ConjunctsEvaluable(pkg: QueryPackage, filter: Option<Circuit>, columns: Columns)
    requires Evaluable(PairCircuit(pkg, filter), columns, 1)
    ensures Evaluable(KeyTest(pkg), columns, 1) && (filter.Some? ==> Evaluable(filter.value, columns, 1))
  {
  }

  lemma PairMaskExists(p: OddPrime, slotCount: nat, pkg: QueryPackage, tables: TableMap, where: Option<Expr>,
                       filter: Option<Circuit>, left: StoredChunk, right: StoredChunk, l: Row, r: Row)
    requires PairMeant(p, slotCount, pkg, tables, where, filter, left, right, l, r)
    requires PairAliasable(pkg, tables, left, right)
    ensures PairMask(p, pkg, tables, filter, left, right).Ok?
    ensures Evaluable(KeyTest(pkg), PairColumns(pkg, tables, left, right), 1)
    ensures filter.Some? && UsesJoined(pkg) ==> Evaluable(filter.value, PairColumns(pkg, tables, left, right), 1)
  {
    ConditionMask(p, slotCount, pkg, tables, where, filter, left, right, l, r, tables[pkg.tableName]);
    ConjunctsEvaluable(pkg, filter, PairColumns(pkg, tables, left, right));
    if where.Some? && !UsesJoined(pkg) {
      LeftEvaluable(p, slotCount, pkg, tables, where, filter, left, right, l, r);
    }
  }
}
