// The conditions of the two whole-query theorems can be met: a small query of each
// kind, over stored rows, that meets them.

module Inhabited {
  import opened Common
  import opened Catalog
  import opened Ast
  import opened PrimeField
  import opened Masks
  import opened Circuit
  import opened Package
  import opened Plain
  import opened Semantic
  import opened Planner
  import opened QueryEncryption
  import opened Execution
  import opened TableQuery
  import opened WellTyped
  import opened Pipeline
  import opened JoinExecution
  import opened JoinColumns
  import opened JoinQuery
  import opened JoinResult
  import opened JoinPipeline

  const KEY_COLUMN := ColumnSchema("k", INT64, 0)
  const KEY_TABLE := TableSchema("", [KEY_COLUMN])
  const KEY_TABLES: TableMap := map["l" := KEY_TABLE, "r" := KEY_TABLE]
  const ONE_ROW: Row := map["k" := IntValue(1)]
  const ONE_CHUNK := StoredChunk(1, map[Plain("k") := Sealed([1])])
  const ONE_STORED: Storage := map["l" := [ONE_CHUNK], "r" := [ONE_CHUNK]]

  lemma OneRowStored(p: OddPrime)
    ensures Stores(p, KEY_TABLE, ONE_CHUNK, [ONE_ROW])
  {
    SmallRemainder(p, 1);
    forall name | KEY_TABLE.HasColumn(name)
      ensures ColumnSlots(p, ONE_CHUNK.columns, [ONE_ROW], KEY_TABLE.Column(name))
    {
      assert KEY_TABLE.Column(name) == KEY_COLUMN;
    }
  }

  lemma KeyTableHas()
    ensures KEY_TABLE.HasColumn("k") && KEY_TABLE.Column("k") == KEY_COLUMN
    ensures !Qualified("k") && PlainSchema(KEY_TABLE)
  {
    assert KEY_TABLE.columns[0] == KEY_COLUMN;
  }

  /** SELECT k FROM l WHERE k = 1. */
  const KEY_QUERY := SelectStatement(["k"], "l", "l", [], Some(Compare(Equal, ColumnRef("k"), IntLiteral(1))), [], -1)

  lemma KeyQueryAccepted()
    ensures GoodQuery(KEY_TABLES, KEY_QUERY)
  {
    KeyTableHas();
    assert KEY_TABLES[KEY_QUERY.tableName] == KEY_TABLE;
    assert TablesKnown(KEY_TABLES, KEY_QUERY);
    SingleScope(KEY_TABLES, KEY_QUERY, "k");
    forall k | 0 <= k < |KEY_QUERY.projections|
      ensures Resolves(AllScopes(KEY_TABLES, KEY_QUERY), KEY_QUERY.projections[k])
    {
      assert KEY_QUERY.projections[k] == "k";
    }
    assert ExprAccepted(KEY_TABLES, KEY_QUERY, KEY_QUERY.whereClause.value);
    assert |OrderNames(KEY_QUERY.orderBy)| == 0;
    assert StatementAccepted(KEY_TABLES, KEY_QUERY);
    assert AllUnqualified(KEY_QUERY.projections) && AllUnqualified(OrderNames(KEY_QUERY.orderBy));
    assert PlainlyNamed(KEY_TABLE, ColumnRef("k")) && PlainlyNamed(KEY_TABLE, IntLiteral(1));
    assert PlainlyNamed(KEY_TABLE, KEY_QUERY.whereClause.value);
    assert SingleTableQuery(KEY_TABLE, KEY_QUERY);
  }

  lemma KeyQueryMeant(p: OddPrime)
    ensures QueryMeant(p, 1, KEY_TABLES, ONE_STORED, KEY_QUERY, [[ONE_ROW]], 2)
  {
    KeyTableHas();
    KeyQueryAccepted();
    OneRowStored(p);
    assert KEY_TABLES[KEY_QUERY.tableName] == KEY_TABLE && ONE_STORED[KEY_QUERY.tableName] == [ONE_CHUNK];
    assert Projected(KEY_QUERY, KEY_TABLE) == ["k"];
    assert RowFine(p, KEY_QUERY.whereClause, KEY_TABLE, ["k"], ONE_ROW);
  }

  /** SELECT l.k FROM l JOIN r ON l.k = r.k WHERE l.k = 1. */
  const ON_KEYS := Compare(Equal, ColumnRef("l.k"), ColumnRef("r.k"))
  const JOINED_KEYS := SelectStatement(["l.k"], "l", "l", [JoinClause(TableRef("r", "r"), ON_KEYS)],
                                      Some(Compare(Equal, ColumnRef("l.k"), IntLiteral(1))), [], -1)

  lemma KeyNames()
    ensures Qualified("l.k") && AliasPart("l.k") == "l" && BareName("l.k") == "k"
    ensures Qualified("r.k") && AliasPart("r.k") == "r" && BareName("r.k") == "k"
  {
    assert "l.k" == Key("l", "k") && "r.k" == Key("r", "k");
    KeyParts("l", "k");
    KeyParts("r", "k");
  }

  lemma JoinedKeysAccepted()
    ensures StatementAccepted(KEY_TABLES, JOINED_KEYS) && Plannable(JOINED_KEYS)
  {
    KeyTableHas();
    KeyNames();
    assert TablesKnown(KEY_TABLES, JOINED_KEYS);
    var scopes := AllScopes(KEY_TABLES, JOINED_KEYS);
    assert scopes == map["l" := KEY_TABLE, "r" := KEY_TABLE] by {
      assert ScopesAfter(KEY_TABLES, JOINED_KEYS, 0) == map["l" := KEY_TABLE];
    }
    assert Resolves(scopes, "l.k") && Resolves(scopes, "r.k");
    assert ResolvesTo(scopes, "l.k", KEY_COLUMN) && ResolvesTo(scopes, "r.k", KEY_COLUMN);
    assert JoinAccepted(scopes, ON_KEYS);
    forall k | 0 <= k < |JOINED_KEYS.projections|
      ensures Resolves(scopes, JOINED_KEYS.projections[k])
    {
      assert JOINED_KEYS.projections[k] == "l.k";
    }
    assert ExprAccepted(KEY_TABLES, JOINED_KEYS, JOINED_KEYS.whereClause.value);
    assert |OrderNames(JOINED_KEYS.orderBy)| == 0;
  }

  lemma JoinedKeysPlan()
    ensures Plannable(JOINED_KEYS)
    ensures
      var plan := PlanFor(KEY_TABLES, JOINED_KEYS);
      && plan.tableName == "l" && plan.tableAlias == "l" && plan.joinedTableName == "r" && plan.joinedTableAlias == "r"
      && plan.joinLeftColumn == "l.k" && plan.joinRightColumn == "r.k" && plan.projectColumns == ["l.k"]
  {
    assert Requested(JOINED_KEYS, KEY_TABLE) == ["l.k"];
  }

  lemma JoinedKeysEncrypt(plan: PhysicalPlan)
    requires plan.tableName == "l" && plan.tableAlias == "l" && plan.projectColumns == ["l.k"]
    ensures Encryptable(JOINED_KEYS, plan, KEY_TABLES)
  {
    KeyTableHas();
    KeyNames();
    JoinedKeysFit();
    assert KEY_TABLES["l"] == KEY_TABLE;
    assert ProjectedKnown(KEY_TABLES, plan, "l.k");
  }

  /** The fields of the package that the join conditions look at. */
  predicate JoinsKeys(pkg: QueryPackage) {
    && pkg.tableName == "l" && pkg.tableAlias == "l" && pkg.joinedTableName == "r" && pkg.joinedTableAlias == "r"
    && pkg.joinLeftColumn == "l.k" && pkg.joinRightColumn == "r.k" && pkg.projectColumns == ["l.k"]
  }

  lemma KeysPlanned(pkg: QueryPackage)
    requires JoinsKeys(pkg)
    ensures JoinPlanned(pkg, KEY_TABLES, JOINED_KEYS.whereClause)
  {
    KeyTableHas();
    KeyNames();
    assert KEY_TABLES[pkg.tableName] == KEY_TABLE && KEY_TABLES[pkg.joinedTableName] == KEY_TABLE;
    assert PairInt(pkg, KEY_TABLES, "l.k") && PairInt(pkg, KEY_TABLES, "r.k");
    assert PairProjected(pkg, KEY_TABLES, "l.k");
  }

  lemma JoinedKeysPackage(p: OddPrime)
    ensures StatementAccepted(KEY_TABLES, JOINED_KEYS) && Plannable(JOINED_KEYS)
    ensures Encryptable(JOINED_KEYS, PlanFor(KEY_TABLES, JOINED_KEYS), KEY_TABLES)
    ensures JoinsKeys(PackageFor(p, 1, JOINED_KEYS, PlanFor(KEY_TABLES, JOINED_KEYS), KEY_TABLES, ""))
  {
    JoinedKeysAccepted();
    JoinedKeysPlan();
    JoinedKeysEncrypt(PlanFor(KEY_TABLES, JOINED_KEYS));
  }

  lemma JoinedKeysFit()
    ensures WhereCompilable(JOINED_KEYS.whereClause, KEY_TABLE)
    ensures WhereInMain(JOINED_KEYS.whereClause, KEY_TABLE) && Fits(JOINED_KEYS.whereClause, KEY_TABLE, 2)
  {
    KeyTableHas();
    KeyNames();
  }

  lemma JoinedKeysStatement(p: OddPrime)
    ensures JoinStatement(p, 1, KEY_TABLES, JOINED_KEYS, "", 2)
  {
    JoinedKeysPackage(p);
    JoinedKeysFit();
    assert KEY_TABLES[JOINED_KEYS.tableName] == KEY_TABLE;
    KeysPlanned(PackageFor(p, 1, JOINED_KEYS, PlanFor(KEY_TABLES, JOINED_KEYS), KEY_TABLES, ""));
  }

  lemma KeyRowsFine(p: OddPrime, pkg: QueryPackage)
    requires JoinsKeys(pkg)
    ensures JoinedAllFine(p, pkg, KEY_TABLES, JOINED_KEYS.whereClause,
                          JoinedRows(pkg, JOINED_KEYS.whereClause, [ONE_ROW], [ONE_ROW]))
  {
    var where, table := JOINED_KEYS.whereClause, ResultTable(pkg, KEY_TABLES);
    KeysPlanned(pkg);
    ResultProjectable(pkg, KEY_TABLES);
    ConditionTyped(pkg, KEY_TABLES, where, table);
    var rows := JoinedRows(pkg, where, [ONE_ROW], [ONE_ROW]);
    forall k | 0 <= k < |rows|
      ensures JoinedFine(p, pkg, KEY_TABLES, where, rows[k])
    {
      JoinedKeyRow(p, pkg, where, rows[k], k);
    }
  }

  lemma KeyRowsStored(p: OddPrime)
    ensures RowsStored(p, KEY_TABLES["l"], ONE_STORED["l"], [ONE_ROW])
    ensures RowsStored(p, KEY_TABLES["r"], ONE_STORED["r"], [ONE_ROW])
  {
    OneRowStored(p);
  }

  lemma JoinedKeysMeant(p: OddPrime)
    ensures JoinQueryMeant(p, 1, KEY_TABLES, ONE_STORED, JOINED_KEYS, [ONE_ROW], [ONE_ROW], "", 2)
  {
    JoinedKeysPackage(p);
    JoinedKeysStatement(p);
    KeyRowsStored(p);
    KeyRowsFine(p, PackageFor(p, 1, JOINED_KEYS, PlanFor(KEY_TABLES, JOINED_KEYS), KEY_TABLES, ""));
  }

  lemma JoinedKeyRow(p: OddPrime, pkg: QueryPackage, where: Option<Expr>, row: Row, k: nat)
    requires JoinPlanned(pkg, KEY_TABLES, where)
    requires JoinsKeys(pkg) && where == JOINED_KEYS.whereClause
    requires k < |JoinedRows(pkg, where, [ONE_ROW], [ONE_ROW])|
    requires row == JoinedRows(pkg, where, [ONE_ROW], [ONE_ROW])[k]
    requires Projectable(ResultTable(pkg, KEY_TABLES), pkg.projectColumns)
    requires IsPredicate(PairCondition(pkg, where), ResultTable(pkg, KEY_TABLES))
    ensures InRange(p, PairCondition(pkg, where), ResultTable(pkg, KEY_TABLES), row)
    ensures Decryptable(p, ResultTable(pkg, KEY_TABLES), pkg.projectColumns, row)
  {
    KeyNames();
    var a, b := PairsParallel([ONE_ROW], [ONE_ROW], [ONE_ROW], [ONE_ROW], 1, k);
    var names := QueryNames(pkg, where);
    assert row == JoinedRow(pkg, names, ONE_ROW, ONE_ROW);
    assert "l.k" in names && "r.k" in names;
    JoinedReads(pkg, names, ONE_ROW, ONE_ROW, "l.k");
    JoinedReads(pkg, names, ONE_ROW, ONE_ROW, "r.k");
    ResultHas(pkg, KEY_TABLES, 0);
  }
}
