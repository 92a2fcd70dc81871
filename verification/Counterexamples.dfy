// Inputs the program receives at which expected properties fail: one for each
// condition that the exact theorems name.

module Counterexamples {
  import opened Common
  import opened Catalog
  import opened Ast
  import opened PrimeField
  import opened Circuit
  import opened Encryptor
  import opened Rebuild
  import opened Plain
  import opened Compiler
  import opened Semantic
  import opened Planner
  import opened QueryEncryption
  import opened Validator
  import opened Execution
  import opened Decoder
  import opened SortLimit
  import opened TableQuery
  import opened WellTyped
  import opened Pipeline
  import opened JoinExecution
  import opened JoinColumns
  import opened JoinQuery
  import opened JoinPipeline
  import opened JoinWellTyped
  import opened Client
  import opened Executability
  import opened JoinExecutability
  import opened Inhabited

  // ---- Qualified names over one table ----

  /** SELECT l.k FROM l. */
  const QUALIFIED_PROJECTION := SelectStatement(["l.k"], "l", "l", [], None, [], -1)

  /** SELECT k FROM l WHERE l.k = 1. */
  const QUALIFIED_WHERE :=
    SelectStatement(["k"], "l", "l", [], Some(Compare(Equal, ColumnRef("l.k"), IntLiteral(1))), [], -1)

  lemma OneScope(stmt: SelectStatement)
    requires stmt.tableName == "l" && stmt.tableAlias == "l" && stmt.joins == []
    ensures TablesKnown(KEY_TABLES, stmt) && AllScopes(KEY_TABLES, stmt) == map["l" := KEY_TABLE]
    ensures Resolves(AllScopes(KEY_TABLES, stmt), "k") && Resolves(AllScopes(KEY_TABLES, stmt), "l.k")
  {
    KeyTableHas();
    KeyNames();
    SingleScope(KEY_TABLES, stmt, "k");
  }

  lemma QualifiedAccepted()
    ensures StatementAccepted(KEY_TABLES, QUALIFIED_PROJECTION) && StatementAccepted(KEY_TABLES, QUALIFIED_WHERE)
  {
    KeyTableHas();
    KeyNames();
    OneScope(QUALIFIED_PROJECTION);
    OneScope(QUALIFIED_WHERE);
    assert QUALIFIED_PROJECTION.projections[0] == "l.k" && QUALIFIED_WHERE.projections[0] == "k";
    assert |OrderNames([])| == 0;
    assert ComparedColumn(KEY_TABLES, QUALIFIED_WHERE, "l.k") == Some(KEY_COLUMN);
    assert ExprAccepted(KEY_TABLES, QUALIFIED_WHERE, QUALIFIED_WHERE.whereClause.value);
  }

  lemma QualifiedFits()
    ensures WhereCompilable(QUALIFIED_WHERE.whereClause, KEY_TABLE) && Fits(QUALIFIED_WHERE.whereClause, KEY_TABLE, 2)
  {
    OperandCompiles(ColumnRef("l.k"), KEY_TABLE);
    OperandCompiles(IntLiteral(1), KEY_TABLE);
  }

  lemma QualifiedStored(p: OddPrime)
    ensures StoredStatement(p, 1, KEY_TABLES, ONE_STORED, QUALIFIED_PROJECTION, [[ONE_ROW]], 2)
    ensures StoredStatement(p, 1, KEY_TABLES, ONE_STORED, QUALIFIED_WHERE, [[ONE_ROW]], 2)
  {
    KeyTableHas();
    QualifiedAccepted();
    QualifiedFits();
    OneRowStored(p);
    assert KEY_TABLES["l"] == KEY_TABLE && ONE_STORED["l"] == [ONE_CHUNK];
  }

  /** Both are accepted, over a stored table, and do not run. */
  lemma QualifiedNamesFail(p: OddPrime, paramSetId: string)
    ensures Ingested(KEY_TABLES, ONE_STORED)
    ensures StatementAccepted(KEY_TABLES, QUALIFIED_PROJECTION) && StatementAccepted(KEY_TABLES, QUALIFIED_WHERE)
    ensures !Runs(p, 1, KEY_TABLES, ONE_STORED, QUALIFIED_PROJECTION, paramSetId, 2)
    ensures !Runs(p, 1, KEY_TABLES, ONE_STORED, QUALIFIED_WHERE, paramSetId, 2)
  {
    KeyNames();
    QualifiedStored(p);
    RunsExactly(p, 1, KEY_TABLES, ONE_STORED, QUALIFIED_PROJECTION, [[ONE_ROW]], paramSetId, 2);
    RunsExactly(p, 1, KEY_TABLES, ONE_STORED, QUALIFIED_WHERE, [[ONE_ROW]], paramSetId, 2);
    assert QUALIFIED_PROJECTION.projections[0] == "l.k";
    assert "l.k" in ColumnNames(QUALIFIED_WHERE.whereClause.value);
  }

  // ---- A bare string literal ----

  /** SELECT k FROM l WHERE 'x'. */
  const BARE_STRING := SelectStatement(["k"], "l", "l", [], Some(StringLiteral("x")), [], -1)

  /** Accepted, but encrypting it throws. */
  lemma BareStringThrows()
    ensures StatementAccepted(KEY_TABLES, BARE_STRING) && !Preparable(BARE_STRING, KEY_TABLES)
  {
    OneScope(BARE_STRING);
    assert BARE_STRING.projections[0] == "k";
    assert |OrderNames([])| == 0;
    EncryptionThrows(KEY_TABLES, BARE_STRING, BARE_STRING.whereClause.value);
  }

  // ---- Two string columns ----

  const LETTER := ColumnSchema("s", STRING, 1)
  const OTHER := ColumnSchema("u", STRING, 1)
  const LETTERS := TableSchema("", [KEY_COLUMN, LETTER, OTHER])
  const LETTER_TABLES: TableMap := map["t" := LETTERS]
  const ROW_B: Row := map["k" := IntValue(1), "s" := StringValue("b"), "u" := StringValue("a")]
  const ROW_A: Row := map["k" := IntValue(2), "s" := StringValue("a"), "u" := StringValue("a")]

  function LetterChunk(p: OddPrime): StoredChunk {
    StoredChunk(2, map[Plain("k") := Sealed([1 % p, 2 % p]), CharAt("s", 0) := Sealed([98 % p, 97 % p]),
                       CharAt("u", 0) := Sealed([97 % p, 97 % p])])
  }

  function LetterStored(p: OddPrime): Storage { map["t" := [LetterChunk(p)]] }

  lemma LettersHave()
    ensures LETTERS.HasColumn("k") && LETTERS.Column("k") == KEY_COLUMN
    ensures LETTERS.HasColumn("s") && LETTERS.Column("s") == LETTER
    ensures LETTERS.HasColumn("u") && LETTERS.Column("u") == OTHER
    ensures PlainSchema(LETTERS) && !Qualified("k") && !Qualified("s") && !Qualified("u")
  {
    assert LETTERS.columns[0] == KEY_COLUMN && LETTERS.columns[1] == LETTER && LETTERS.columns[2] == OTHER;
  }

  lemma LetterSlots(p: OddPrime, c: ColumnSchema)
    requires c == KEY_COLUMN || c == LETTER || c == OTHER
    ensures ColumnSlots(p, LetterChunk(p).columns, [ROW_B, ROW_A], c)
  {
    if c != KEY_COLUMN {
      assert CharSlots(p, LetterChunk(p).columns, [ROW_B, ROW_A], c.name, 0);
    }
  }

  lemma LettersStored(p: OddPrime)
    ensures TableStored(p, 2, LETTERS, LetterStored(p)["t"], [[ROW_B, ROW_A]])
  {
    forall name | LETTERS.HasColumn(name)
      ensures ColumnSlots(p, LetterChunk(p).columns, [ROW_B, ROW_A], LETTERS.Column(name))
    {
      LetterSlots(p, LETTERS.Column(name));
    }
    assert Stores(p, LETTERS, LetterChunk(p), [ROW_B, ROW_A]);
  }

  function FromLetters(projections: seq<string>, where: Option<Expr>, orderBy: seq<OrderByColumn>): SelectStatement {
    SelectStatement(projections, "t", "t", [], where, orderBy, -1)
  }

  lemma LettersResolve(stmt: SelectStatement, name: string)
    requires stmt.tableName == "t" && stmt.joins == [] && (name == "k" || name == "s" || name == "u")
    ensures TablesKnown(LETTER_TABLES, stmt) && Resolves(AllScopes(LETTER_TABLES, stmt), name)
  {
    LettersHave();
    assert LETTER_TABLES["t"] == LETTERS;
    SingleScope(LETTER_TABLES, stmt, name);
  }

  /** s = u. */
  const LETTERS_EQUAL := Compare(Equal, ColumnRef("s"), ColumnRef("u"))

  lemma LettersEqualAccepted(stmt: SelectStatement)
    requires stmt == FromLetters(["k"], Some(LETTERS_EQUAL), [])
    ensures StatementAccepted(LETTER_TABLES, stmt)
  {
    LettersHave();
    LettersResolve(stmt, "k");
    assert ExprAccepted(LETTER_TABLES, stmt, LETTERS_EQUAL);
    OneNameAccepted(LETTER_TABLES, stmt, "k");
  }

  lemma LettersEqualRefused(stmt: SelectStatement)
    requires stmt == FromLetters(["k"], Some(LETTERS_EQUAL), [])
    ensures AllNamesUnqualified(stmt) && NoBareString(LETTERS_EQUAL) && !WhereRuns(LETTERS, stmt.whereClause)
    ensures WhereCompilable(stmt.whereClause, LETTERS) && Fits(stmt.whereClause, LETTERS, 2)
  {
    LettersHave();
    assert stmt.projections[0] == "k";
    assert !IntegersElsewhere(LETTERS, ColumnRef("s"));
    OperandCompiles(ColumnRef("s"), LETTERS);
    OperandCompiles(ColumnRef("u"), LETTERS);
  }

  lemma LettersEqualStored(p: OddPrime, stmt: SelectStatement)
    requires stmt == FromLetters(["k"], Some(LETTERS_EQUAL), [])
    ensures Ingested(LETTER_TABLES, LetterStored(p))
    ensures StoredStatement(p, 2, LETTER_TABLES, LetterStored(p), stmt, [[ROW_B, ROW_A]], 2)
  {
    LettersHave();
    LettersEqualAccepted(stmt);
    LettersEqualRefused(stmt);
    LettersStored(p);
    assert LETTER_TABLES["t"] == LETTERS;
  }

  /** SELECT k FROM t WHERE s = u: accepted, with unqualified names and no string
      literal, over a stored table; it does not run. */
  lemma StringColumnsFail(p: OddPrime, stmt: SelectStatement, paramSetId: string)
    requires stmt == FromLetters(["k"], Some(LETTERS_EQUAL), [])
    ensures Ingested(LETTER_TABLES, LetterStored(p)) && StatementAccepted(LETTER_TABLES, stmt)
    ensures AllNamesUnqualified(stmt) && NoBareString(LETTERS_EQUAL)
    ensures !Runs(p, 2, LETTER_TABLES, LetterStored(p), stmt, paramSetId, 2)
  {
    LettersEqualStored(p, stmt);
    LettersEqualRefused(stmt);
    assert LETTER_TABLES[stmt.tableName] == LETTERS;
    RunsExactly(p, 2, LETTER_TABLES, LetterStored(p), stmt, [[ROW_B, ROW_A]], paramSetId, 2);
  }

  // ---- ORDER BY a string column ----

  const BY_LETTER := [OrderByColumn("s", Ascending)]

  lemma OrderedAccepted(stmt: SelectStatement)
    requires stmt == FromLetters(["k", "s"], None, BY_LETTER)
    ensures GoodQuery(LETTER_TABLES, stmt)
  {
    LettersHave();
    LettersResolve(stmt, "k");
    LettersResolve(stmt, "s");
    forall k | 0 <= k < |stmt.projections|
      ensures Resolves(AllScopes(LETTER_TABLES, stmt), stmt.projections[k]) && !Qualified(stmt.projections[k])
    {
      assert stmt.projections[k] == "k" || stmt.projections[k] == "s";
    }
    assert OrderNames(BY_LETTER) == ["s"];
  }

  lemma OrderedProjected(stmt: SelectStatement)
    requires stmt == FromLetters(["k", "s"], None, BY_LETTER)
    ensures Projected(stmt, LETTERS) == ["k", "s"]
  {
  }

  /** An integer column k and a string column s of one character. */
  predicate HasLetters(schema: TableSchema) {
    && schema.HasColumn("k") && schema.Column("k").kind != STRING
    && schema.HasColumn("s") && schema.Column("s").kind == STRING && schema.Column("s").maxLength == 1
  }

  lemma LettersProjectable(schema: TableSchema)
    requires HasLetters(schema)
    ensures Projectable(schema, ["k", "s"])
    ensures IntNames(schema, ["k", "s"]) == {"k"} && Present(BY_LETTER, {"k"}) == []
  {
    assert BY_LETTER[1..] == [];
  }

  lemma LetterRow(schema: TableSchema, row: Row, k: int, s: string)
    requires "k" in row && "s" in row && row["k"] == IntValue(k) && row["s"] == StringValue(s)
    requires HasLetters(schema) && Projectable(schema, ["k", "s"])
    ensures ProjectRow(schema, ["k", "s"], row) == ResultRow(map["k" := k], map["s" := s])
  {
  }

  lemma TwoRows(schema: TableSchema, names: seq<string>, a: Row, b: Row)
    requires Projectable(schema, names)
    ensures PlainRows(None, schema, names, [a, b], 2) == [ProjectRow(schema, names, a), ProjectRow(schema, names, b)]
  {
    assert PlainRows(None, schema, names, [a, b], 1) == [ProjectRow(schema, names, a)];
  }

  lemma OrderedResult(stmt: SelectStatement, schema: TableSchema)
    requires stmt == FromLetters(["k", "s"], None, BY_LETTER) && HasLetters(schema)
    requires Projected(stmt, schema) == ["k", "s"]
    ensures Projectable(schema, Projected(stmt, schema))
    ensures PlainResult(stmt, schema, [ROW_B, ROW_A]) ==
      [ResultRow(map["k" := 1], map["s" := "b"]), ResultRow(map["k" := 2], map["s" := "a"])]
  {
    LettersProjectable(schema);
    LetterRow(schema, ROW_B, 1, "b");
    LetterRow(schema, ROW_A, 2, "a");
    TwoRows(schema, ["k", "s"], ROW_B, ROW_A);
  }

  lemma LetterFine(p: OddPrime, schema: TableSchema, row: Row)
    requires p == 257 && HasLetters(schema) && Projectable(schema, ["k", "s"]) && (row == ROW_A || row == ROW_B)
    ensures RowFine(p, None, schema, ["k", "s"], row)
  {
  }

  lemma LettersFine(p: OddPrime, schema: TableSchema)
    requires p == 257 && HasLetters(schema) && Projectable(schema, ["k", "s"])
    ensures AllChunksFine(p, None, schema, ["k", "s"], [[ROW_B, ROW_A]])
  {
    LetterFine(p, schema, ROW_A);
    LetterFine(p, schema, ROW_B);
    assert AllRowsFine(p, None, schema, ["k", "s"], [ROW_B, ROW_A]);
  }

  /** SELECT k, s FROM t ORDER BY s: accepted and executed, but the row with "b" stays
      in front of the row with "a". */
  lemma StringOrderIgnored(p: OddPrime, stmt: SelectStatement)
    requires p == 257 && stmt == FromLetters(["k", "s"], None, BY_LETTER)
    ensures QueryMeant(p, 2, LETTER_TABLES, LetterStored(p), stmt, [[ROW_B, ROW_A]], 1)
    ensures Projectable(LETTERS, Projected(stmt, LETTERS))
    ensures PlainResult(stmt, LETTERS, [ROW_B, ROW_A]) ==
      [ResultRow(map["k" := 1], map["s" := "b"]), ResultRow(map["k" := 2], map["s" := "a"])]
  {
    OrderedAccepted(stmt);
    OrderedProjected(stmt);
    LettersHave();
    OrderedResult(stmt, LETTERS);
    LettersStored(p);
    LettersFine(p, LETTERS);
    assert LETTER_TABLES[stmt.tableName] == LETTERS;
  }

  // ---- A WHERE on a column that only the joined table has ----

  const EXTRA_COLUMN := ColumnSchema("v", INT64, 0)
  const NAME_COLUMN := ColumnSchema("s", STRING, 4)
  const WIDE_TABLE := TableSchema("", [KEY_COLUMN, EXTRA_COLUMN, NAME_COLUMN])
  const WIDE_TABLES: TableMap := map["l" := KEY_TABLE, "r" := WIDE_TABLE]

  function JoinedWhere(where: Expr): SelectStatement {
    SelectStatement(["l.k"], "l", "l", [JoinClause(TableRef("r", "r"), ON_KEYS)], Some(where), [], -1)
  }

  /** SELECT l.k FROM l JOIN r ON l.k = r.k WHERE r.v = 1. */
  const EXTRA_WHERE := Compare(Equal, ColumnRef("r.v"), IntLiteral(1))

  /** SELECT l.k FROM l JOIN r ON l.k = r.k WHERE r.s = 'x'. */
  const NAME_WHERE := Compare(Equal, ColumnRef("r.s"), StringLiteral("x"))

  lemma WideTableHas()
    ensures WIDE_TABLE.HasColumn("k") && WIDE_TABLE.Column("k") == KEY_COLUMN
    ensures WIDE_TABLE.HasColumn("v") && WIDE_TABLE.Column("v") == EXTRA_COLUMN && !KEY_TABLE.HasColumn("v")
    ensures WIDE_TABLE.HasColumn("s") && WIDE_TABLE.Column("s") == NAME_COLUMN && !KEY_TABLE.HasColumn("s")
  {
    assert WIDE_TABLE.columns[0] == KEY_COLUMN && WIDE_TABLE.columns[1] == EXTRA_COLUMN;
    assert WIDE_TABLE.columns[2] == NAME_COLUMN;
  }

  lemma ExtraNames()
    ensures Qualified("r.v") && AliasPart("r.v") == "r" && BareName("r.v") == "v"
    ensures Qualified("r.s") && AliasPart("r.s") == "r" && BareName("r.s") == "s"
  {
    assert "r.v" == Key("r", "v") && "r.s" == Key("r", "s");
    KeyParts("r", "v");
    KeyParts("r", "s");
  }

  lemma WideNames()
    ensures KEY_TABLE.HasColumn("k") && KEY_TABLE.Column("k") == KEY_COLUMN
    ensures WIDE_TABLE.HasColumn("k") && WIDE_TABLE.Column("k") == KEY_COLUMN
    ensures Qualified("l.k") && AliasPart("l.k") == "l" && BareName("l.k") == "k"
    ensures Qualified("r.k") && AliasPart("r.k") == "r" && BareName("r.k") == "k"
  {
    KeyTableHas();
    WideTableHas();
    KeyNames();
  }

  lemma WideScopes(stmt: SelectStatement)
    requires stmt.tableName == "l" && stmt.tableAlias == "l" && stmt.joins == [JoinClause(TableRef("r", "r"), ON_KEYS)]
    ensures TablesKnown(WIDE_TABLES, stmt)
    ensures JoinAccepted(AllScopes(WIDE_TABLES, stmt), ON_KEYS) && Resolves(AllScopes(WIDE_TABLES, stmt), "l.k")
  {
    WideNames();
    var scopes := AllScopes(WIDE_TABLES, stmt);
    assert scopes == map["l" := KEY_TABLE, "r" := WIDE_TABLE] by {
      assert ScopesAfter(WIDE_TABLES, stmt, 0) == map["l" := KEY_TABLE];
    }
    assert ResolvesTo(scopes, "l.k", KEY_COLUMN) && ResolvesTo(scopes, "r.k", KEY_COLUMN);
  }

  lemma ComparedInJoined(stmt: SelectStatement, where: Expr)
    requires stmt.tableName == "l" && stmt.tableAlias == "l" && stmt.joins == [JoinClause(TableRef("r", "r"), ON_KEYS)]
    requires TablesKnown(WIDE_TABLES, stmt) && (where == EXTRA_WHERE || where == NAME_WHERE)
    ensures ExprAccepted(WIDE_TABLES, stmt, where)
  {
    WideTableHas();
    ExtraNames();
    assert FirstJoin(stmt.joins, "r") == Some(stmt.joins[0]);
    assert ComparedColumn(WIDE_TABLES, stmt, "r.v") == Some(EXTRA_COLUMN);
    assert ComparedColumn(WIDE_TABLES, stmt, "r.s") == Some(NAME_COLUMN);
  }

  lemma OneResolves(scopes: Scopes, names: seq<string>, name: string)
    requires names == [name] && Resolves(scopes, name)
    ensures forall k :: 0 <= k < |names| ==> Resolves(scopes, names[k])
  {
  }

  lemma OneJoinAccepted(scopes: Scopes, joins: seq<JoinClause>)
    requires |joins| <= 1 && (joins != [] ==> JoinAccepted(scopes, joins[0].condition))
    ensures forall k :: 0 <= k < |joins| ==> JoinAccepted(scopes, joins[k].condition)
  {
    forall k | 0 <= k < |joins|
      ensures JoinAccepted(scopes, joins[k].condition)
    {
      assert k == 0 && joins[k] == joins[0];
    }
  }

  lemma NothingOrdered(scopes: Scopes, orderBy: seq<OrderByColumn>)
    requires orderBy == []
    ensures forall k :: 0 <= k < |OrderNames(orderBy)| ==> Resolves(scopes, OrderNames(orderBy)[k])
  {
    assert |OrderNames(orderBy)| == 0;
  }

  lemma OneNameAccepted(tables: TableMap, stmt: SelectStatement, name: string)
    requires TablesKnown(tables, stmt) && stmt.tableName != "" && |stmt.joins| <= 1
    requires stmt.projections == [name] && Resolves(AllScopes(tables, stmt), name)
    requires stmt.whereClause.Some? ==> ExprAccepted(tables, stmt, stmt.whereClause.value)
    requires stmt.joins != [] ==> JoinAccepted(AllScopes(tables, stmt), stmt.joins[0].condition)
    requires stmt.orderBy == [] && stmt.limitCount == -1
    ensures StatementAccepted(tables, stmt)
  {
    OneResolves(AllScopes(tables, stmt), stmt.projections, name);
    OneJoinAccepted(AllScopes(tables, stmt), stmt.joins);
    NothingOrdered(AllScopes(tables, stmt), stmt.orderBy);
  }

  lemma JoinedWhereAccepted(stmt: SelectStatement, where: Expr)
    requires stmt == JoinedWhere(where) && (where == EXTRA_WHERE || where == NAME_WHERE)
    ensures StatementAccepted(WIDE_TABLES, stmt) && Plannable(stmt)
  {
    WideScopes(stmt);
    ComparedInJoined(stmt, where);
    OneNameAccepted(WIDE_TABLES, stmt, "l.k");
  }

  lemma ExtraEncrypts(stmt: SelectStatement, plan: PhysicalPlan)
    requires stmt.whereClause == Some(EXTRA_WHERE)
    requires plan.tableName == "l" && plan.tableAlias == "l" && plan.projectColumns == ["l.k"]
    ensures Encryptable(stmt, plan, WIDE_TABLES)
  {
    KeyTableHas();
    KeyNames();
    assert WIDE_TABLES["l"] == KEY_TABLE;
    assert ProjectedKnown(WIDE_TABLES, plan, "l.k");
    OperandCompiles(EXTRA_WHERE.left, KEY_TABLE);
    OperandCompiles(EXTRA_WHERE.right, KEY_TABLE);
  }

  lemma ExtraPrepared(stmt: SelectStatement)
    requires stmt == JoinedWhere(EXTRA_WHERE)
    ensures Preparable(stmt, WIDE_TABLES)
  {
    JoinedWhereAccepted(stmt, EXTRA_WHERE);
    assert Projected(stmt, KEY_TABLE) == ["l.k"];
    ExtraEncrypts(stmt, PlanFor(WIDE_TABLES, stmt));
  }

  /** The first is encrypted, but every server rejects its package. */
  lemma JoinedColumnRejected(p: OddPrime, slotCount: nat, stmt: SelectStatement, paramSetId: string, stack: nat)
    requires stmt == JoinedWhere(EXTRA_WHERE)
    ensures Preparable(stmt, WIDE_TABLES)
    ensures !PackageAccepted(PackageFor(p, slotCount, stmt, PlanFor(WIDE_TABLES, stmt), WIDE_TABLES, paramSetId),
                             WIDE_TABLES, paramSetId, stack)
  {
    ExtraPrepared(stmt);
    WideTableHas();
    ExtraNames();
    assert "r.v" in ColumnNames(EXTRA_WHERE);
    JoinedOnlyWhereRejected(p, slotCount, WIDE_TABLES, stmt, paramSetId, stack, "r.v");
  }

  /** The second is accepted, but encrypting it throws. */
  lemma JoinedStringThrows(stmt: SelectStatement)
    requires stmt == JoinedWhere(NAME_WHERE)
    ensures StatementAccepted(WIDE_TABLES, stmt) && !Preparable(stmt, WIDE_TABLES)
  {
    WideTableHas();
    ExtraNames();
    JoinedWhereAccepted(stmt, NAME_WHERE);
    EncryptionThrows(WIDE_TABLES, stmt, NAME_WHERE);
  }

  lemma OnlyInJoined(stmt: SelectStatement)
    requires stmt == JoinedWhere(EXTRA_WHERE).(projections := ["v"], whereClause := None)
    ensures TablesKnown(WIDE_TABLES, stmt) && Resolves(AllScopes(WIDE_TABLES, stmt), "v")
  {
    WideTableHas();
    var scopes := AllScopes(WIDE_TABLES, stmt);
    assert scopes == map["l" := KEY_TABLE, "r" := WIDE_TABLE] by {
      assert ScopesAfter(WIDE_TABLES, stmt, 0) == map["l" := KEY_TABLE];
    }
    assert !Qualified("v") && scopes["r"].HasColumn("v") && Unrivalled(scopes, "r", "v");
  }

  lemma NotFoundThrows(tables: TableMap, stmt: SelectStatement, name: string)
    requires stmt.tableName in tables && name in stmt.projections
    requires !Qualified(name) && !tables[stmt.tableName].HasColumn(name)
    ensures !Preparable(stmt, tables)
  {
    var k :| 0 <= k < |stmt.projections| && stmt.projections[k] == name;
    assert !NamesFound(stmt, tables[stmt.tableName]);
    if Preparable(stmt, tables) {
      ProjectedIsFound(tables, stmt, PlanFor(tables, stmt));
    }
  }

  /** SELECT v FROM l JOIN r ON l.k = r.k: v resolves, in r, but encrypting looks every
      unqualified name up in l. */
  lemma JoinedNameThrows(stmt: SelectStatement)
    requires stmt == JoinedWhere(EXTRA_WHERE).(projections := ["v"], whereClause := None)
    ensures StatementAccepted(WIDE_TABLES, stmt) && !Preparable(stmt, WIDE_TABLES)
  {
    WideTableHas();
    WideScopes(stmt);
    OnlyInJoined(stmt);
    OneNameAccepted(WIDE_TABLES, stmt, "v");
    assert stmt.projections == ["v"] && !Qualified("v");
    NotFoundThrows(WIDE_TABLES, stmt, "v");
  }

  // ---- Joins that do not run ----

  function KeyJoin(on: Expr, where: Option<Expr>): SelectStatement {
    SelectStatement(["l.k"], "l", "l", [JoinClause(TableRef("r", "r"), on)], where, [], -1)
  }

  /** SELECT l.k FROM l JOIN r ON r.k = l.k. */
  const KEYS_SWAPPED := Compare(Equal, ColumnRef("r.k"), ColumnRef("l.k"))

  /** SELECT l.k FROM l JOIN r ON l.k = r.k WHERE k = 1. */
  const KEY_WHERE := Compare(Equal, ColumnRef("k"), IntLiteral(1))

  lemma KeyJoinScopes(stmt: SelectStatement, on: Expr, where: Option<Expr>)
    requires stmt == KeyJoin(on, where) && (on == ON_KEYS || on == KEYS_SWAPPED)
    ensures TablesKnown(KEY_TABLES, stmt) && TwoTables(KEY_TABLES, stmt)
    ensures Resolves(AllScopes(KEY_TABLES, stmt), "l.k") && JoinAccepted(AllScopes(KEY_TABLES, stmt), on)
  {
    KeyTableHas();
    KeyNames();
    var scopes := AllScopes(KEY_TABLES, stmt);
    assert scopes == map["l" := KEY_TABLE, "r" := KEY_TABLE] by {
      assert ScopesAfter(KEY_TABLES, stmt, 0) == map["l" := KEY_TABLE];
    }
    assert ResolvesTo(scopes, "l.k", KEY_COLUMN) && ResolvesTo(scopes, "r.k", KEY_COLUMN);
  }

  lemma KeyJoinAccepted(stmt: SelectStatement, on: Expr, where: Option<Expr>)
    requires stmt == KeyJoin(on, where) && (on == ON_KEYS || on == KEYS_SWAPPED)
    requires where == None || where == Some(KEY_WHERE)
    ensures TablesKnown(KEY_TABLES, stmt) && StatementAccepted(KEY_TABLES, stmt) && TwoTables(KEY_TABLES, stmt)
  {
    KeyTableHas();
    KeyJoinScopes(stmt, on, where);
    if where == Some(KEY_WHERE) {
      assert ComparedColumn(KEY_TABLES, stmt, "k") == Some(KEY_COLUMN);
      assert ExprAccepted(KEY_TABLES, stmt, KEY_WHERE);
    }
    OneNameAccepted(KEY_TABLES, stmt, "l.k");
  }

  lemma KeyWhereFits(where: Option<Expr>)
    requires where == None || where == Some(KEY_WHERE)
    ensures WhereCompilable(where, KEY_TABLE) && Fits(where, KEY_TABLE, 2)
  {
    OperandCompiles(ColumnRef("k"), KEY_TABLE);
    OperandCompiles(IntLiteral(1), KEY_TABLE);
  }

  /** One of these joins that misses the conditions is accepted and does not run. */
  lemma KeyJoinFails(p: OddPrime, stmt: SelectStatement, on: Expr, where: Option<Expr>, paramSetId: string)
    requires stmt == KeyJoin(on, where) && (on == ON_KEYS || on == KEYS_SWAPPED)
    requires where == None || where == Some(KEY_WHERE)
    requires TablesKnown(KEY_TABLES, stmt) && !JoinConditions(KEY_TABLES, stmt)
    ensures Ingested(KEY_TABLES, ONE_STORED) && StatementAccepted(KEY_TABLES, stmt)
    ensures !Runs(p, 1, KEY_TABLES, ONE_STORED, stmt, paramSetId, 2)
  {
    KeyJoinAccepted(stmt, on, where);
    KeyRowsStored(p);
    KeyWhereFits(where);
    assert KEY_TABLES[stmt.tableName] == KEY_TABLE;
    JoinRunsExactly(p, 1, KEY_TABLES, ONE_STORED, stmt, [ONE_ROW], [ONE_ROW], paramSetId, 2);
  }

  /** Keys in the other order. */
  lemma SwappedKeysFail(p: OddPrime, stmt: SelectStatement, paramSetId: string)
    requires stmt == KeyJoin(KEYS_SWAPPED, None)
    ensures Ingested(KEY_TABLES, ONE_STORED) && StatementAccepted(KEY_TABLES, stmt)
    ensures !Runs(p, 1, KEY_TABLES, ONE_STORED, stmt, paramSetId, 2)
  {
    KeyNames();
    assert AliasPart("r.k") != stmt.tableAlias;
    KeyJoinFails(p, stmt, KEYS_SWAPPED, None, paramSetId);
  }

  lemma UnqualifiedOperand(tables: TableMap, stmt: SelectStatement, e: Expr, name: string)
    requires TablesKnown(tables, stmt) && |stmt.joins| == 1 && stmt.whereClause == Some(e)
    requires e.Compare? && e.left == ColumnRef(name) && !Qualified(name)
    ensures !JoinConditions(tables, stmt)
  {
    assert !OnIntegers(tables, stmt, e.left);
  }

  /** An unqualified name in WHERE. */
  lemma UnqualifiedWhereFails(p: OddPrime, stmt: SelectStatement, paramSetId: string)
    requires stmt == KeyJoin(ON_KEYS, Some(KEY_WHERE))
    ensures Ingested(KEY_TABLES, ONE_STORED) && StatementAccepted(KEY_TABLES, stmt)
    ensures !Runs(p, 1, KEY_TABLES, ONE_STORED, stmt, paramSetId, 2)
  {
    KeyTableHas();
    KeyJoinScopes(stmt, ON_KEYS, Some(KEY_WHERE));
    UnqualifiedOperand(KEY_TABLES, stmt, KEY_WHERE, "k");
    KeyJoinFails(p, stmt, ON_KEYS, Some(KEY_WHERE), paramSetId);
  }

  // ---- A string comparison over the depth budget ----

  /** Strings of 16 characters, as in the sample tables. */
  const SAMPLE_STRING := ColumnSchema("s", STRING, 16)
  const SAMPLES := TableSchema("", [KEY_COLUMN, SAMPLE_STRING])

  /** s = 'x'. */
  const STRING_TEST := Compare(Equal, ColumnRef("s"), StringLiteral("x"))

  lemma SamplePredicates(schema: TableSchema, both: Expr)
    requires schema.HasColumn("s") && schema.Column("s") == SAMPLE_STRING && both == And(STRING_TEST, KEY_WHERE)
    ensures IsPredicate(STRING_TEST, schema) && IsPredicate(KEY_WHERE, schema) && IsPredicate(both, schema)
    ensures StringWidth(STRING_TEST.left, STRING_TEST.right, schema) == 16
  {
    BareOfUnqualified("s");
  }

  /** s = 'x' fits the configured depth, and s = 'x' AND k = 1 does not. */
  lemma ConnectedStringOver(p: OddPrime, slotCount: nat, both: Expr)
    requires p == 257 && both == And(STRING_TEST, KEY_WHERE)
    ensures Compilable(both, SAMPLES) && WidthsPositive(both, SAMPLES)
    ensures Depth(p, Translate(p, slotCount, STRING_TEST, SAMPLES)) <= BUDGET
    ensures Depth(p, Translate(p, slotCount, both, SAMPLES)) > BUDGET
  {
    assert SAMPLES.columns[0] == KEY_COLUMN && SAMPLES.columns[1] == SAMPLE_STRING;
    SamplePredicates(SAMPLES, both);
    StringWidthBudget(p, slotCount, STRING_TEST, SAMPLES);
    ConnectedStringBudget(p, slotCount, both, SAMPLES, STRING_TEST, KEY_WHERE);
  }
}
