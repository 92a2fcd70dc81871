// Decoding the batches of a join gives the filtered and projected pairs of rows.

module JoinResult {
  import opened Common
  import opened Catalog
  import opened Ast
  import opened PrimeField
  import opened Circuit
  import opened Package
  import opened Encryptor
  import opened Rebuild
  import opened Plain
  import opened Compiler
  import opened Execution
  import opened Decoder
  import opened SortLimit
  import opened TableQuery
  import opened RowDecode
  import opened JoinExecution
  import opened JoinColumns
  import opened JoinQuery

  // ---- The projected names as the columns of one table ----

  predicate AllProjected(pkg: QueryPackage, tables: TableMap) {
    forall k :: 0 <= k < |pkg.projectColumns| ==> PairProjected(pkg, tables, pkg.projectColumns[k])
  }

  function ResultColumn(pkg: QueryPackage, tables: TableMap, name: string): ColumnSchema
    requires PairProjected(pkg, tables, name)
  {
    var c := SideColumn(pkg, tables, name);
    ColumnSchema(name, c.kind, c.maxLength)
  }

  /** The result of the join as a table: every projected name is a column. */
  function ResultTable(pkg: QueryPackage, tables: TableMap): TableSchema
    requires AllProjected(pkg, tables)
  {
    TableSchema("", seq(|pkg.projectColumns|, k requires 0 <= k < |pkg.projectColumns| =>
      ResultColumn(pkg, tables, pkg.projectColumns[k])))
  }

  lemma ResultHas(pkg: QueryPackage, tables: TableMap, k: nat)
    requires AllProjected(pkg, tables) && k < |pkg.projectColumns|
    ensures ResultTable(pkg, tables).HasColumn(pkg.projectColumns[k])
    ensures ResultTable(pkg, tables).Column(pkg.projectColumns[k]) == ResultColumn(pkg, tables, pkg.projectColumns[k])
  {
    var columns, name := ResultTable(pkg, tables).columns, pkg.projectColumns[k];
    assert columns[k].name == name;
    var j :| 0 <= j < |columns| && columns[j] == FirstColumn(columns, name).value;
    assert columns[j] == ResultColumn(pkg, tables, pkg.projectColumns[j]);
  }

  lemma ResultProjectable(pkg: QueryPackage, tables: TableMap)
    requires AllProjected(pkg, tables)
    ensures Projectable(ResultTable(pkg, tables), pkg.projectColumns)
    ensures AllKnown(ResultTable(pkg, tables), pkg.projectColumns)
  {
    forall k | 0 <= k < |pkg.projectColumns|
      ensures
        var name := pkg.projectColumns[k];
        IntColumn(ResultTable(pkg, tables), name) || StringColumnOf(ResultTable(pkg, tables), name)
    {
      ResultHas(pkg, tables, k);
    }
  }

  // ---- Its stored columns ----

  function ResultCiphertext(pkg: QueryPackage, left: StoredChunk, right: StoredChunk, x: PhysicalColumn): Ciphertext {
    match x
    case Plain(name) => Stored(SideChunk(pkg, name, left, right).columns, Plain(BareName(name)))
    case CharAt(name, k) => Stored(SideChunk(pkg, name, left, right).columns, CharAt(BareName(name), k))
    case AliasedCharAt(_, _, _) => Sealed([])
  }

  function ResultColumns(pkg: QueryPackage, tables: TableMap, left: StoredChunk, right: StoredChunk): Columns
    requires AllProjected(pkg, tables) && AllKnown(ResultTable(pkg, tables), pkg.projectColumns)
  {
    map x | x in PhysicalList(ResultTable(pkg, tables), pkg.projectColumns) :: ResultCiphertext(pkg, left, right, x)
  }

  lemma ResultListed(pkg: QueryPackage, tables: TableMap, k: nat, j: nat)
    requires AllProjected(pkg, tables) && AllKnown(ResultTable(pkg, tables), pkg.projectColumns)
    requires k < |pkg.projectColumns| && j < PhysicalWidth(SideColumn(pkg, tables, pkg.projectColumns[k]))
    ensures
      var x := PhysicalAt(ResultColumn(pkg, tables, pkg.projectColumns[k]), j);
      x in PhysicalList(ResultTable(pkg, tables), pkg.projectColumns)
  {
    var c := ResultColumn(pkg, tables, pkg.projectColumns[k]);
    ResultHas(pkg, tables, k);
    assert PhysicalOf(c)[j] == PhysicalAt(c, j);
    PhysicalListed(ResultTable(pkg, tables), pkg.projectColumns, |pkg.projectColumns|, k, PhysicalAt(c, j));
  }

  lemma ResultStored(pkg: QueryPackage, tables: TableMap, left: StoredChunk, right: StoredChunk, k: nat, j: nat)
    requires AllProjected(pkg, tables) && AllKnown(ResultTable(pkg, tables), pkg.projectColumns)
    requires k < |pkg.projectColumns| && SideStored(pkg, tables, pkg.projectColumns[k], left, right)
    requires j < PhysicalWidth(SideColumn(pkg, tables, pkg.projectColumns[k]))
    ensures
      var name, all := pkg.projectColumns[k], ResultColumns(pkg, tables, left, right);
      var c, x := SideColumn(pkg, tables, name), PhysicalAt(ResultColumn(pkg, tables, name), j);
      && PhysicalAt(c, j) in SideChunk(pkg, name, left, right).columns
      && x in all && all[x] == SideChunk(pkg, name, left, right).columns[PhysicalAt(c, j)]
  {
    var name := pkg.projectColumns[k];
    ResultListed(pkg, tables, k, j);
    assert SideColumn(pkg, tables, name).name == BareName(name);
    assert PhysicalAt(SideColumn(pkg, tables, name), j) in SideChunk(pkg, name, left, right).columns;
  }

  lemma ResultColumnStored(pkg: QueryPackage, tables: TableMap, left: StoredChunk, right: StoredChunk, k: nat)
    requires AllProjected(pkg, tables) && AllKnown(ResultTable(pkg, tables), pkg.projectColumns)
    requires k < |pkg.projectColumns| && SideStored(pkg, tables, pkg.projectColumns[k], left, right)
    ensures
      var name, all := pkg.projectColumns[k], ResultColumns(pkg, tables, left, right);
      && ColumnStored(ResultColumn(pkg, tables, name), all)
      && SameCiphertexts(SideColumn(pkg, tables, name), SideChunk(pkg, name, left, right).columns,
                         ResultColumn(pkg, tables, name), all)
  {
    forall j | 0 <= j < PhysicalWidth(ResultColumn(pkg, tables, pkg.projectColumns[k]))
      ensures PhysicalAt(ResultColumn(pkg, tables, pkg.projectColumns[k]), j) in ResultColumns(pkg, tables, left, right)
      ensures SameCiphertext(SideColumn(pkg, tables, pkg.projectColumns[k]),
                             SideChunk(pkg, pkg.projectColumns[k], left, right).columns,
                             ResultColumn(pkg, tables, pkg.projectColumns[k]),
                             ResultColumns(pkg, tables, left, right), j)
    {
      ResultStored(pkg, tables, left, right, k, j);
    }
  }

  predicate SameCiphertext(c: ColumnSchema, from: Columns, d: ColumnSchema, to: Columns, j: nat) {
    && PhysicalAt(c, j) in from && PhysicalAt(d, j) in to
    && to[PhysicalAt(d, j)] == from[PhysicalAt(c, j)]
  }

  predicate SameCiphertexts(c: ColumnSchema, from: Columns, d: ColumnSchema, to: Columns) {
    && c.kind == d.kind && c.maxLength == d.maxLength
    && forall j :: 0 <= j < PhysicalWidth(c) ==> SameCiphertext(c, from, d, to, j)
  }

  lemma RenamedAsColumn(c: ColumnSchema, from: Columns, d: ColumnSchema, to: Columns)
    requires SameCiphertexts(c, from, d, to)
    ensures ColumnStored(c, from) && ColumnStored(d, to) && RenamedResults(d.name, c, from) == ColumnResults(d, to)
  {
    forall j | 0 <= j < PhysicalWidth(c)
      ensures PhysicalAt(c, j) in from && PhysicalAt(d, j) in to
      ensures from[PhysicalAt(c, j)] == to[PhysicalAt(d, j)]
    {
      assert SameCiphertext(c, from, d, to, j);
    }
  }

  /** Serialized from its side, a projected name is a column of the result table. */
  ghost predicate SameColumn(pkg: QueryPackage, tables: TableMap, left: StoredChunk, right: StoredChunk,
                             schema: TableSchema, all: Columns, name: string)
  {
    && schema.HasColumn(name) && ColumnStored(schema.Column(name), all)
    && RenamedResults(name, SideColumn(pkg, tables, name), SideChunk(pkg, name, left, right).columns) ==
         ColumnResults(schema.Column(name), all)
  }

  lemma ColumnsSame(pkg: QueryPackage, tables: TableMap, left: StoredChunk, right: StoredChunk, k: nat)
    requires AllProjected(pkg, tables) && AllKnown(ResultTable(pkg, tables), pkg.projectColumns)
    requires PairProjectable(pkg, tables, left, right) && k < |pkg.projectColumns|
    ensures SameColumn(pkg, tables, left, right, ResultTable(pkg, tables), ResultColumns(pkg, tables, left, right),
                       pkg.projectColumns[k])
  {
    var name, all := pkg.projectColumns[k], ResultColumns(pkg, tables, left, right);
    ResultHas(pkg, tables, k);
    ResultColumnStored(pkg, tables, left, right, k);
    RenamedAsColumn(SideColumn(pkg, tables, name), SideChunk(pkg, name, left, right).columns,
                    ResultColumn(pkg, tables, name), all);
  }

  /** Every projected name is, and the result table can be projected. */
  ghost predicate SameColumns(pkg: QueryPackage, tables: TableMap, left: StoredChunk, right: StoredChunk,
                              schema: TableSchema, all: Columns)
  {
    && AllKnown(schema, pkg.projectColumns) && AllProjectable(schema, pkg.projectColumns, all)
    && forall k :: 0 <= k < |pkg.projectColumns| ==>
         SameColumn(pkg, tables, left, right, schema, all, pkg.projectColumns[k])
  }

  ghost predicate SameFirst(pkg: QueryPackage, tables: TableMap, left: StoredChunk, right: StoredChunk,
                            schema: TableSchema, all: Columns, k: nat)
    requires SameColumns(pkg, tables, left, right, schema, all) && k <= |pkg.projectColumns|
  {
    PairProjection(pkg, tables, left, right, k) == ProjectFirst(schema, pkg.projectColumns, all, k)
  }

  lemma SameFirstNone(pkg: QueryPackage, tables: TableMap, left: StoredChunk, right: StoredChunk, schema: TableSchema,
                      all: Columns)
    requires SameColumns(pkg, tables, left, right, schema, all)
    ensures SameFirst(pkg, tables, left, right, schema, all, 0)
  {
  }

  lemma SameFirstSnoc(pkg: QueryPackage, tables: TableMap, left: StoredChunk, right: StoredChunk, schema: TableSchema,
                      all: Columns, k: nat)
    requires SameColumns(pkg, tables, left, right, schema, all) && 0 < k <= |pkg.projectColumns|
    requires SameFirst(pkg, tables, left, right, schema, all, k - 1)
    ensures SameFirst(pkg, tables, left, right, schema, all, k)
  {
    assert SameColumn(pkg, tables, left, right, schema, all, pkg.projectColumns[k - 1]);
  }

  /** The serialized pair is the projection of the result table. */
  lemma {:induction false} SameProjection(pkg: QueryPackage, tables: TableMap, left: StoredChunk, right: StoredChunk,
                                          schema: TableSchema, all: Columns, k: nat)
    requires SameColumns(pkg, tables, left, right, schema, all) && k <= |pkg.projectColumns|
    ensures SameFirst(pkg, tables, left, right, schema, all, k)
  {
    if k == 0 {
      SameFirstNone(pkg, tables, left, right, schema, all);
    } else {
      SameProjection(pkg, tables, left, right, schema, all, k - 1);
      SameFirstSnoc(pkg, tables, left, right, schema, all, k);
    }
  }

  lemma ResultAllProjectable(pkg: QueryPackage, tables: TableMap, left: StoredChunk, right: StoredChunk)
    requires AllProjected(pkg, tables) && AllKnown(ResultTable(pkg, tables), pkg.projectColumns)
    requires PairProjectable(pkg, tables, left, right)
    ensures AllProjectable(ResultTable(pkg, tables), pkg.projectColumns, ResultColumns(pkg, tables, left, right))
  {
    forall k | 0 <= k < |pkg.projectColumns|
      ensures ColumnStored(ResultTable(pkg, tables).Column(pkg.projectColumns[k]),
                           ResultColumns(pkg, tables, left, right))
    {
      ResultHas(pkg, tables, k);
      ResultColumnStored(pkg, tables, left, right, k);
    }
  }

  // ---- They hold the joined row ----

  lemma SideSlots(p: OddPrime, pkg: QueryPackage, tables: TableMap, left: StoredChunk, right: StoredChunk, l: Row,
                  r: Row, name: string)
    requires pkg.tableName in tables && pkg.joinedTableName in tables && PairProjected(pkg, tables, name)
    requires PairStored(p, pkg, tables, left, right, l, r)
    ensures ColumnSlots(p, SideChunk(pkg, name, left, right).columns, [SideRow(pkg, name, l, r)],
                        SideColumn(pkg, tables, name))
    ensures SideStored(pkg, tables, name, left, right)
  {
    SlotsStored(p, SideChunk(pkg, name, left, right).columns, [SideRow(pkg, name, l, r)],
                SideColumn(pkg, tables, name));
  }

  lemma PairIsProjectable(p: OddPrime, pkg: QueryPackage, tables: TableMap, left: StoredChunk, right: StoredChunk,
                          l: Row, r: Row)
    requires pkg.tableName in tables && pkg.joinedTableName in tables && AllProjected(pkg, tables)
    requires PairStored(p, pkg, tables, left, right, l, r)
    ensures PairProjectable(pkg, tables, left, right)
  {
    forall k | 0 <= k < |pkg.projectColumns|
      ensures SideStored(pkg, tables, pkg.projectColumns[k], left, right)
    {
      SideSlots(p, pkg, tables, left, right, l, r, pkg.projectColumns[k]);
    }
  }

  lemma SlotsMoved(p: OddPrime, c: ColumnSchema, from: Columns, side: Row, d: ColumnSchema, to: Columns, row: Row)
    requires SameCiphertexts(c, from, d, to) && ColumnSlots(p, from, [side], c)
    requires IntAt(row, d.name) == IntAt(side, c.name) && StringAt(row, d.name) == StringAt(side, c.name)
    ensures ColumnSlots(p, to, [row], d)
  {
    assert [side][0] == side && [row][0] == row;
    if c.kind == STRING {
      forall j | 0 <= j < c.maxLength
        ensures CharSlots(p, to, [row], d.name, j)
      {
        assert SameCiphertext(c, from, d, to, j);
        assert CharSlots(p, from, [side], c.name, j);
      }
    } else {
      assert SameCiphertext(c, from, d, to, 0);
    }
  }

  lemma ResultSlots(p: OddPrime, pkg: QueryPackage, tables: TableMap, left: StoredChunk, right: StoredChunk, l: Row,
                    r: Row, names: set<string>, k: nat)
    requires pkg.tableName in tables && pkg.joinedTableName in tables && PairStored(p, pkg, tables, left, right, l, r)
    requires AllProjected(pkg, tables) && AllKnown(ResultTable(pkg, tables), pkg.projectColumns)
    requires k < |pkg.projectColumns| && pkg.projectColumns[k] in names
    ensures ColumnSlots(p, ResultColumns(pkg, tables, left, right), [JoinedRow(pkg, names, l, r)],
                        ResultTable(pkg, tables).Column(pkg.projectColumns[k]))
  {
    var name := pkg.projectColumns[k];
    ResultHas(pkg, tables, k);
    SideSlots(p, pkg, tables, left, right, l, r, name);
    JoinedReads(pkg, names, l, r, name);
    ResultColumnStored(pkg, tables, left, right, k);
    SlotsMoved(p, SideColumn(pkg, tables, name), SideChunk(pkg, name, left, right).columns, SideRow(pkg, name, l, r),
               ResultColumn(pkg, tables, name), ResultColumns(pkg, tables, left, right), JoinedRow(pkg, names, l, r));
  }

  // ---- One pair ----

  /** The query's conditions on a joined row: keys and comparisons in range and, if the
      pair is kept, a projection that can be decrypted. */
  predicate JoinedFine(p: OddPrime, pkg: QueryPackage, tables: TableMap, where: Option<Expr>, row: Row)
    requires AllProjected(pkg, tables) && Projectable(ResultTable(pkg, tables), pkg.projectColumns)
    requires IsPredicate(PairCondition(pkg, where), ResultTable(pkg, tables))
  {
    RowFine(p, Some(PairCondition(pkg, where)), ResultTable(pkg, tables), pkg.projectColumns, row)
  }

  /** The same with no condition on integers, nor on pairs that are dropped. */
  predicate JoinedZpFine(p: OddPrime, pkg: QueryPackage, tables: TableMap, where: Option<Expr>, row: Row)
    requires AllProjected(pkg, tables) && Projectable(ResultTable(pkg, tables), pkg.projectColumns)
    requires IsPredicate(PairCondition(pkg, where), ResultTable(pkg, tables))
  {
    ZpFine(p, Some(PairCondition(pkg, where)), ResultTable(pkg, tables), pkg.projectColumns, row)
  }

  lemma PairRowDecoded(p: OddPrime, pkg: QueryPackage, tables: TableMap, where: Option<Expr>, left: StoredChunk,
                       right: StoredChunk, l: Row, r: Row, batch: ResultBatch)
    requires JoinPlanned(pkg, tables, where) && PairStored(p, pkg, tables, left, right, l, r)
    requires Projectable(ResultTable(pkg, tables), pkg.projectColumns)
    requires
      var row := JoinedRow(pkg, QueryNames(pkg, where), l, r);
      CleanStrings(p, ResultTable(pkg, tables), pkg.projectColumns, row)
    requires PairProjectable(pkg, tables, left, right) && batch.rowCount == 1
    requires batch.columns == PairProjection(pkg, tables, left, right, |pkg.projectColumns|)
    ensures
      var row := JoinedRow(pkg, QueryNames(pkg, where), l, r);
      RowResult(DecryptColumns(batch), 1, 0) == Ok(ZpProjectRow(p, ResultTable(pkg, tables), pkg.projectColumns, row))
  {
    var table, names := ResultTable(pkg, tables), pkg.projectColumns;
    var row := JoinedRow(pkg, QueryNames(pkg, where), l, r);
    ResultProjectable(pkg, tables);
    var columns := ResultColumns(pkg, tables, left, right);
    ResultAllProjectable(pkg, tables, left, right);
    forall j | 0 <= j < |names|
      ensures SameColumn(pkg, tables, left, right, table, columns, names[j])
    {
      ColumnsSame(pkg, tables, left, right, j);
    }
    SameProjection(pkg, tables, left, right, table, columns, |names|);
    ProjectionGroups(table, names, columns, 1, |names|);
    forall k | 0 <= k < |names|
      ensures ColumnSlots(p, columns, [row], table.Column(names[k]))
    {
      assert names[k] in QueryNames(pkg, where);
      ResultSlots(p, pkg, tables, left, right, l, r, QueryNames(pkg, where), k);
    }
    RowDecoded(p, table, names, columns, [row], 0, DecryptColumns(batch));
  }

  lemma PairSelected(p: OddPrime, slotCount: nat, pkg: QueryPackage, tables: TableMap, where: Option<Expr>,
                     filter: Option<Circuit>, left: StoredChunk, right: StoredChunk, l: Row, r: Row, rightKey: string,
                     id: nat, batch: ResultBatch, schema: TableSchema)
    requires PairMeant(p, slotCount, pkg, tables, where, filter, left, right, l, r)
    requires IsPairBatch(p, pkg, tables, filter, rightKey, left, right, id, batch)
    requires IsPredicate(PairCondition(pkg, where), schema)
    ensures Selected(DecryptMask(batch), 0) <==>
      ZpEval(p, PairCondition(pkg, where), schema, JoinedRow(pkg, QueryNames(pkg, where), l, r))
  {
    var e, row := PairCondition(pkg, where), JoinedRow(pkg, QueryNames(pkg, where), l, r);
    HoistingSound(p, pkg, tables, filter, left, right);
    ConditionMask(p, slotCount, pkg, tables, where, filter, left, right, l, r, schema);
  }

  lemma SingleRow(p: OddPrime, where: Option<Expr>, schema: TableSchema, names: seq<string>, row: Row,
                  batch: ResultBatch)
    requires where.Some? ==> IsPredicate(where.value, schema)
    requires Projectable(schema, names) && batch.rowCount == 1
    requires Selected(DecryptMask(batch), 0) <==> ZpKeeps(p, where, schema, row)
    requires ZpKeeps(p, where, schema, row) ==>
      RowResult(DecryptColumns(batch), 1, 0) == Ok(ZpProjectRow(p, schema, names, row))
    ensures DecodeBatch(batch) == Ok(ZpRows(p, where, schema, names, [row], 1))
  {
    assert [row][0] == row;
    SelectedRows(p, where, schema, names, [row], DecryptColumns(batch), DecryptMask(batch), 1);
  }

  /** One pair, whatever its values: its batch decodes to the joined row, filtered and
      projected modulo p. */
  lemma PairDecodes(p: OddPrime, slotCount: nat, pkg: QueryPackage, tables: TableMap, where: Option<Expr>,
                    filter: Option<Circuit>, left: StoredChunk, right: StoredChunk, l: Row, r: Row, rightKey: string,
                    id: nat, batch: ResultBatch)
    requires PairMeant(p, slotCount, pkg, tables, where, filter, left, right, l, r)
    requires IsPairBatch(p, pkg, tables, filter, rightKey, left, right, id, batch)
    requires Projectable(ResultTable(pkg, tables), pkg.projectColumns)
    requires IsPredicate(PairCondition(pkg, where), ResultTable(pkg, tables))
    requires JoinedZpFine(p, pkg, tables, where, JoinedRow(pkg, QueryNames(pkg, where), l, r))
    ensures DecodeBatch(batch) == Ok(ZpRows(p, Some(PairCondition(pkg, where)), ResultTable(pkg, tables),
      pkg.projectColumns, [JoinedRow(pkg, QueryNames(pkg, where), l, r)], 1))
  {
    var schema, row := ResultTable(pkg, tables), JoinedRow(pkg, QueryNames(pkg, where), l, r);
    PairSelected(p, slotCount, pkg, tables, where, filter, left, right, l, r, rightKey, id, batch, schema);
    if ZpKeeps(p, Some(PairCondition(pkg, where)), schema, row) {
      PairRowDecoded(p, pkg, tables, where, left, right, l, r, batch);
    }
    SingleRow(p, Some(PairCondition(pkg, where)), schema, pkg.projectColumns, row, batch);
  }

  // ---- A planned join never lacks a column ----

  lemma KeysQualified(pkg: QueryPackage, tables: TableMap, where: Option<Expr>)
    requires JoinPlanned(pkg, tables, where)
    ensures JoinQualified(pkg)
    ensures LeftKey(pkg) == BareName(pkg.joinLeftColumn) && RightKey(pkg) == BareName(pkg.joinRightColumn)
  {
    DottedName(pkg.joinLeftColumn);
    DottedName(pkg.joinRightColumn);
  }

  lemma PlainStored(p: OddPrime, schema: TableSchema, chunk: StoredChunk, row: Row, name: string)
    requires Stores(p, schema, chunk, [row]) && schema.HasColumn(name) && schema.Column(name).kind != STRING
    ensures Plain(name) in chunk.columns
  {
    assert ColumnSlots(p, chunk.columns, [row], schema.Column(name));
  }

  lemma PairExecutable(p: OddPrime, slotCount: nat, pkg: QueryPackage, tables: TableMap, where: Option<Expr>,
                       filter: Option<Circuit>, left: StoredChunk, right: StoredChunk, l: Row, r: Row)
    requires PairMeant(p, slotCount, pkg, tables, where, filter, left, right, l, r)
    ensures JoinQualified(pkg) && PairFine(pkg, tables, filter, RightKey(pkg), left, right)
  {
    KeysQualified(pkg, tables, where);
    PairIsAliasable(p, pkg, tables, where, left, right, l, r);
    PairMaskExists(p, slotCount, pkg, tables, where, filter, left, right, l, r);
    PairIsProjectable(p, pkg, tables, left, right, l, r);
    PlainStored(p, tables[pkg.joinedTableName], right, r, RightKey(pkg));
  }

  lemma LeftExecutable(p: OddPrime, slotCount: nat, pkg: QueryPackage, tables: TableMap, where: Option<Expr>,
                       filter: Option<Circuit>, left: StoredChunk, l: Row)
    requires slotCount >= 1 && JoinPlanned(pkg, tables, where) && JoinFilter(p, slotCount, pkg, tables, where, filter)
    requires Stores(p, tables[pkg.tableName], left, [l])
    requires where.Some? && !UsesJoined(pkg) ==> forall q :: q in ColumnNames(where.value) ==> OnLeft(pkg, q)
    ensures JoinQualified(pkg) && LeftFine(pkg, tables, filter, LeftKey(pkg), left)
  {
    KeysQualified(pkg, tables, where);
    StoredAliasable(p, tables[pkg.tableName], left, l);
    PlainStored(p, tables[pkg.tableName], left, l, LeftKey(pkg));
    if where.Some? && !UsesJoined(pkg) {
      LeftAlone(p, slotCount, pkg, tables, where.value, left, l);
    }
  }

  /** A filter over left columns only needs the left row. */
  lemma LeftAlone(p: OddPrime, slotCount: nat, pkg: QueryPackage, tables: TableMap, e: Expr, left: StoredChunk, l: Row)
    requires slotCount >= 1 && AliasesApart(pkg) && PairTyped(pkg, tables, e) && pkg.tableName in tables
    requires DistinctNames(tables[pkg.tableName].columns) && AllAliasable(tables[pkg.tableName].columns, left)
    requires Stores(p, tables[pkg.tableName], left, [l])
    requires forall q :: q in ColumnNames(e) ==> OnLeft(pkg, q)
    ensures Compilable(e, tables[pkg.tableName]) && WidthsPositive(e, tables[pkg.tableName])
    ensures Evaluable(Translate(p, slotCount, e, tables[pkg.tableName]), LeftColumns(pkg, tables, left), 1)
  {
    var schema, columns := tables[pkg.tableName], LeftColumns(pkg, tables, left);
    var row := JoinedRow(pkg, ColumnNames(e), l, l);
    forall q | q in ColumnNames(e)
      ensures IntHeld(p, columns, 1, 0, q, row)
    {
      TypedNames(pkg, tables, e, q);
      JoinedReads(pkg, ColumnNames(e), l, l, q);
      DottedName(q);
      TableIntHeld(p, schema, map[], pkg.tableAlias, left, l, BareName(q));
    }
    HeldByNames(p, pkg, tables, e, schema, columns, row);
    CircuitComputesZp(p, slotCount, e, schema, columns, 1, 0, row);
  }

  // ---- Filters of any shape ----

  predicate Readable(columns: Columns, q: string) { Plain(q) in columns && |columns[Plain(q)].slots| >= 1 }

  /** A filter can be evaluated wherever its columns are. */
  lemma {:induction false} FilterReadable(p: OddPrime, slotCount: nat, pkg: QueryPackage, tables: TableMap, e: Expr,
                                          schema: TableSchema, columns: Columns)
    requires slotCount >= 1 && PairRunnable(pkg, tables, e) && Compilable(e, schema) && WidthsPositive(e, schema)
    requires forall q :: q in ColumnNames(e) ==> Readable(columns, q)
    ensures Evaluable(Translate(p, slotCount, e, schema), columns, 1)
  {
    if e.ColumnRef? {
      assert e.name in ColumnNames(e);
    } else if e.Not? {
      FilterReadable(p, slotCount, pkg, tables, e.left, schema, columns);
    } else if IsBinary(e) {
      FilterReadable(p, slotCount, pkg, tables, e.left, schema, columns);
      FilterReadable(p, slotCount, pkg, tables, e.right, schema, columns);
      BinaryEvaluable(BinaryKind(e), Translate(p, slotCount, e.left, schema), Translate(p, slotCount, e.right, schema),
                      columns, 1);
    }
  }

  lemma LeftFiltered(p: OddPrime, slotCount: nat, pkg: QueryPackage, tables: TableMap, e: Expr, left: StoredChunk,
                     l: Row, schema: TableSchema)
    requires slotCount >= 1 && JoinPlanned(pkg, tables, None) && PairRunnable(pkg, tables, e)
    requires Compilable(e, schema) && WidthsPositive(e, schema) && Stores(p, tables[pkg.tableName], left, [l])
    requires forall q :: q in ColumnNames(e) ==> OnLeft(pkg, q)
    ensures AllAliasable(tables[pkg.tableName].columns, left)
    ensures Evaluable(Translate(p, slotCount, e, schema), LeftColumns(pkg, tables, left), 1)
  {
    StoredAliasable(p, tables[pkg.tableName], left, l);
    forall q | q in ColumnNames(e)
      ensures Readable(LeftColumns(pkg, tables, left), q)
    {
      RunnableNames(pkg, tables, e, q);
      DottedName(q);
      TableIntHeld(p, tables[pkg.tableName], map[], pkg.tableAlias, left, l, BareName(q));
    }
    FilterReadable(p, slotCount, pkg, tables, e, schema, LeftColumns(pkg, tables, left));
  }

  lemma PairFiltered(p: OddPrime, slotCount: nat, pkg: QueryPackage, tables: TableMap, e: Expr, left: StoredChunk,
                     right: StoredChunk, l: Row, r: Row, schema: TableSchema)
    requires slotCount >= 1 && JoinPlanned(pkg, tables, None) && PairRunnable(pkg, tables, e)
    requires Compilable(e, schema) && WidthsPositive(e, schema)
    requires PairStored(p, pkg, tables, left, right, l, r)
    ensures PairAliasable(pkg, tables, left, right)
    ensures Evaluable(Translate(p, slotCount, e, schema), PairColumns(pkg, tables, left, right), 1)
  {
    PairIsAliasable(p, pkg, tables, None, left, right, l, r);
    forall q | q in ColumnNames(e)
      ensures Readable(PairColumns(pkg, tables, left, right), q)
    {
      RunnableNames(pkg, tables, e, q);
      PairIntHeld(p, pkg, tables, None, left, right, l, r, {q}, q);
    }
    FilterReadable(p, slotCount, pkg, tables, e, schema, PairColumns(pkg, tables, left, right));
  }

  // ---- When WHERE leaves the joined table alone ----

  lemma {:induction false} NameHasNode(p: OddPrime, slotCount: nat, nodes: seq<PredNode>, literals: seq<LiteralEntry>,
                                       idx: nat, e: Expr, schema: TableSchema, pkg: QueryPackage, tables: TableMap,
                                       q: string)
    requires Compilable(e, schema) && Represents(p, slotCount, nodes, literals, idx, e, schema)
    requires PairRunnable(pkg, tables, e) && q in ColumnNames(e)
    ensures exists i :: 0 <= i < |nodes| && nodes[i].kind == ColumnNode && nodes[i].columnName == q
    decreases e
  {
    var node := nodes[idx];
    if e.Not? {
      NameHasNode(p, slotCount, nodes, literals, node.left, e.left, schema, pkg, tables, q);
    } else if !e.ColumnRef? {
      assert IsBinary(e);
      if q in ColumnNames(e.left) {
        NameHasNode(p, slotCount, nodes, literals, node.left, e.left, schema, pkg, tables, q);
      } else {
        NameHasNode(p, slotCount, nodes, literals, node.right, e.right, schema, pkg, tables, q);
      }
    }
  }

  /** The server's test on column nodes finds every use of the joined table. */
  lemma JoinedUseSeen(p: OddPrime, slotCount: nat, pkg: QueryPackage, tables: TableMap, e: Expr, schema: TableSchema,
                      q: string)
    requires AliasesApart(pkg) && Compilable(e, schema) && PairRunnable(pkg, tables, e)
    requires CarriesPredicate(p, slotCount, e, schema, pkg) && q in ColumnNames(e) && !OnLeft(pkg, q)
    ensures UsesJoined(pkg)
  {
    WalkExtends(p, slotCount, e, schema, NO_TABLES);
    WalkRepresents(p, slotCount, e, schema, NO_TABLES);
    NameHasNode(p, slotCount, pkg.predicateNodes, pkg.encryptedLiterals, |pkg.predicateNodes| - 1, e, schema, pkg,
                tables, q);
    var i :| 0 <= i < |pkg.predicateNodes| && pkg.predicateNodes[i].kind == ColumnNode &&
             pkg.predicateNodes[i].columnName == q;
    RunnableNames(pkg, tables, e, q);
    DottedName(q);
    assert JoinedNode(pkg, pkg.predicateNodes[i]);
  }

  // ---- The whole join ----

  lemma {:induction false} SameCount<A, B, C, D>(ls: seq<A>, rs: seq<B>, ls': seq<C>, rs': seq<D>, i: nat)
    requires i <= |ls| == |ls'| && |rs| == |rs'|
    ensures |Pairs(ls, rs, i)| == |Pairs(ls', rs', i)|
  {
    if i > 0 {
      SameCount(ls, rs, ls', rs', i - 1);
      PairRowAt(ls[i - 1], rs, |rs|, 0);
      PairRowAt(ls'[i - 1], rs', |rs'|, 0);
    }
  }

  lemma LastRow<A, B>(ls: seq<A>, rs: seq<B>, i: nat, b: nat)
    requires 0 < i <= |ls|
    ensures |Pairs(ls, rs, i)| == |Pairs(ls, rs, i - 1)| + |rs|
    ensures b < |rs| ==> Pairs(ls, rs, i)[|Pairs(ls, rs, i - 1)| + b] == (ls[i - 1], rs[b])
  {
    PairRowAt(ls[i - 1], rs, |rs|, b);
  }

  /** Two equally long pairs of lists are paired up at the same positions. */
  lemma {:induction false} PairsParallel<A, B, C, D>(ls: seq<A>, rs: seq<B>, ls': seq<C>, rs': seq<D>, i: nat, k: nat)
    returns (a: nat, b: nat)
    requires i <= |ls| == |ls'| && |rs| == |rs'| && k < |Pairs(ls, rs, i)|
    ensures a < i && b < |rs| && k < |Pairs(ls', rs', i)|
    ensures Pairs(ls, rs, i)[k] == (ls[a], rs[b]) && Pairs(ls', rs', i)[k] == (ls'[a], rs'[b])
  {
    SameCount(ls, rs, ls', rs', i);
    SameCount(ls, rs, ls', rs', i - 1);
    var before := |Pairs(ls, rs, i - 1)|;
    if k < before {
      a, b := PairsParallel(ls, rs, ls', rs', i - 1, k);
    } else {
      LastRow(ls, rs, i, k - before);
      LastRow(ls', rs', i, k - before);
      a, b := i - 1, k - before;
    }
  }

  /** All pairs of rows, left-major. */
  function JoinedRows(pkg: QueryPackage, where: Option<Expr>, ls: seq<Row>, rs: seq<Row>): seq<Row> {
    var pairs := Pairs(ls, rs, |ls|);
    seq(|pairs|, k requires 0 <= k < |pairs| => JoinedRow(pkg, QueryNames(pkg, where), pairs[k].0, pairs[k].1))
  }

  ghost predicate RowsStored(p: OddPrime, schema: TableSchema, chunks: seq<StoredChunk>, rows: seq<Row>) {
    |chunks| == |rows| && forall i :: 0 <= i < |rows| ==> Stores(p, schema, chunks[i], [rows[i]])
  }

  /** A planned join over two tables stored one row a chunk. */
  ghost predicate JoinMeant(p: OddPrime, slotCount: nat, pkg: QueryPackage, tables: TableMap, where: Option<Expr>,
                            filter: Option<Circuit>, lefts: seq<StoredChunk>, rights: seq<StoredChunk>, ls: seq<Row>,
                            rs: seq<Row>)
  {
    && slotCount >= 1
    && JoinPlanned(pkg, tables, where)
    && JoinFilter(p, slotCount, pkg, tables, where, filter)
    && (where.Some? && !UsesJoined(pkg) ==> forall q :: q in ColumnNames(where.value) ==> OnLeft(pkg, q))
    && RowsStored(p, tables[pkg.tableName], lefts, ls)
    && RowsStored(p, tables[pkg.joinedTableName], rights, rs)
  }

  lemma JoinExecutable(p: OddPrime, slotCount: nat, pkg: QueryPackage, tables: TableMap, where: Option<Expr>,
                       filter: Option<Circuit>, lefts: seq<StoredChunk>, rights: seq<StoredChunk>, ls: seq<Row>,
                       rs: seq<Row>)
    requires JoinMeant(p, slotCount, pkg, tables, where, filter, lefts, rights, ls, rs)
    ensures JoinQualified(pkg)
    ensures LeftsFine(pkg, tables, filter, LeftKey(pkg), lefts)
    ensures PairsFine(pkg, tables, filter, RightKey(pkg), Pairs(lefts, rights, |lefts|))
  {
    KeysQualified(pkg, tables, where);
    forall i | 0 <= i < |lefts|
      ensures LeftFine(pkg, tables, filter, LeftKey(pkg), lefts[i])
    {
      LeftExecutable(p, slotCount, pkg, tables, where, filter, lefts[i], ls[i]);
    }
    var pairs := Pairs(lefts, rights, |lefts|);
    forall k | 0 <= k < |pairs|
      ensures PairFine(pkg, tables, filter, RightKey(pkg), pairs[k].0, pairs[k].1)
    {
      var a, b := PairsParallel(lefts, rights, ls, rs, |lefts|, k);
      PairExecutable(p, slotCount, pkg, tables, where, filter, lefts[a], rights[b], ls[a], rs[b]);
    }
  }

  /** The same for a filter of any shape: what a join without WHERE executes, it does
      with one that can be evaluated. */
  lemma FilteredExecutable(p: OddPrime, slotCount: nat, pkg: QueryPackage, tables: TableMap, e: Expr,
                           schema: TableSchema, lefts: seq<StoredChunk>, rights: seq<StoredChunk>, ls: seq<Row>,
                           rs: seq<Row>)
    requires JoinMeant(p, slotCount, pkg, tables, None, None, lefts, rights, ls, rs) && PairRunnable(pkg, tables, e)
    requires Compilable(e, schema) && WidthsPositive(e, schema)
    requires !UsesJoined(pkg) ==> forall q :: q in ColumnNames(e) ==> OnLeft(pkg, q)
    ensures JoinQualified(pkg)
    ensures
      var filter := Some(Translate(p, slotCount, e, schema));
      && LeftsFine(pkg, tables, filter, LeftKey(pkg), lefts)
      && PairsFine(pkg, tables, filter, RightKey(pkg), Pairs(lefts, rights, |lefts|))
  {
    var filter := Some(Translate(p, slotCount, e, schema));
    JoinExecutable(p, slotCount, pkg, tables, None, None, lefts, rights, ls, rs);
    forall i | 0 <= i < |lefts|
      ensures LeftFine(pkg, tables, filter, LeftKey(pkg), lefts[i])
    {
      assert LeftFine(pkg, tables, None, LeftKey(pkg), lefts[i]);
      if !UsesJoined(pkg) {
        LeftFiltered(p, slotCount, pkg, tables, e, lefts[i], ls[i], schema);
      }
    }
    var pairs := Pairs(lefts, rights, |lefts|);
    forall k | 0 <= k < |pairs|
      ensures PairFine(pkg, tables, filter, RightKey(pkg), pairs[k].0, pairs[k].1)
    {
      assert PairFine(pkg, tables, None, RightKey(pkg), pairs[k].0, pairs[k].1);
      var a, b := PairsParallel(lefts, rights, ls, rs, |lefts|, k);
      PairFiltered(p, slotCount, pkg, tables, e, lefts[a], rights[b], ls[a], rs[b], schema);
    }
  }

  /** Every joined row meets the query's conditions. */
  ghost predicate JoinedAllZpFine(p: OddPrime, pkg: QueryPackage, tables: TableMap, where: Option<Expr>,
                                  rows: seq<Row>)
  {
    && AllProjected(pkg, tables) && Projectable(ResultTable(pkg, tables), pkg.projectColumns)
    && IsPredicate(PairCondition(pkg, where), ResultTable(pkg, tables))
    && forall k :: 0 <= k < |rows| ==> JoinedZpFine(p, pkg, tables, where, rows[k])
  }

  ghost predicate JoinedAllFine(p: OddPrime, pkg: QueryPackage, tables: TableMap, where: Option<Expr>, rows: seq<Row>) {
    && AllProjected(pkg, tables) && Projectable(ResultTable(pkg, tables), pkg.projectColumns)
    && IsPredicate(PairCondition(pkg, where), ResultTable(pkg, tables))
    && forall k :: 0 <= k < |rows| ==> JoinedFine(p, pkg, tables, where, rows[k])
  }

  lemma RowOfPair(pkg: QueryPackage, where: Option<Expr>, ls: seq<Row>, rs: seq<Row>, k: nat, l: Row, r: Row)
    requires k < |Pairs(ls, rs, |ls|)| && Pairs(ls, rs, |ls|)[k] == (l, r)
    ensures k < |JoinedRows(pkg, where, ls, rs)|
    ensures JoinedRows(pkg, where, ls, rs)[k] == JoinedRow(pkg, QueryNames(pkg, where), l, r)
  {
  }

  lemma BatchOfPair(p: OddPrime, pkg: QueryPackage, tables: TableMap, filter: Option<Circuit>, rightKey: string,
                    pairs: seq<(StoredChunk, StoredChunk)>, batches: seq<ResultBatch>, k: nat, left: StoredChunk,
                    right: StoredChunk)
    requires ArePairBatches(p, pkg, tables, filter, rightKey, pairs, batches) && k < |pairs|
    requires pairs[k] == (left, right)
    ensures IsPairBatch(p, pkg, tables, filter, rightKey, left, right, k, batches[k])
    ensures batches[k].batchId == ToU32(k)
  {
  }

  lemma PairsDecode(p: OddPrime, slotCount: nat, pkg: QueryPackage, tables: TableMap, where: Option<Expr>,
                    filter: Option<Circuit>, lefts: seq<StoredChunk>, rights: seq<StoredChunk>, ls: seq<Row>,
                    rs: seq<Row>, rightKey: string, batches: seq<ResultBatch>, k: nat)
    requires JoinMeant(p, slotCount, pkg, tables, where, filter, lefts, rights, ls, rs)
    requires JoinedAllZpFine(p, pkg, tables, where, JoinedRows(pkg, where, ls, rs))
    requires ArePairBatches(p, pkg, tables, filter, rightKey, Pairs(lefts, rights, |lefts|), batches)
    requires k < |batches|
    ensures k < |JoinedRows(pkg, where, ls, rs)| && batches[k].batchId == ToU32(k)
    ensures DecodeBatch(batches[k]) == Ok(ZpRows(p, Some(PairCondition(pkg, where)), ResultTable(pkg, tables),
      pkg.projectColumns, [JoinedRows(pkg, where, ls, rs)[k]], 1))
  {
    var a, b := PairsParallel(lefts, rights, ls, rs, |lefts|, k);
    RowOfPair(pkg, where, ls, rs, k, ls[a], rs[b]);
    BatchOfPair(p, pkg, tables, filter, rightKey, Pairs(lefts, rights, |lefts|), batches, k, lefts[a], rights[b]);
    assert JoinedZpFine(p, pkg, tables, where, JoinedRow(pkg, QueryNames(pkg, where), ls[a], rs[b]));
    PairDecodes(p, slotCount, pkg, tables, where, filter, lefts[a], rights[b], ls[a], rs[b], rightKey, k, batches[k]);
  }

  ghost predicate NumberedBatches(batches: seq<ResultBatch>) {
    forall k :: 0 <= k < |batches| ==> batches[k].batchId == ToU32(k)
  }

  lemma AllPairsDecode(p: OddPrime, slotCount: nat, pkg: QueryPackage, tables: TableMap, where: Option<Expr>,
                       filter: Option<Circuit>, lefts: seq<StoredChunk>, rights: seq<StoredChunk>, ls: seq<Row>,
                       rs: seq<Row>, rightKey: string, batches: seq<ResultBatch>)
    requires JoinMeant(p, slotCount, pkg, tables, where, filter, lefts, rights, ls, rs)
    requires JoinedAllZpFine(p, pkg, tables, where, JoinedRows(pkg, where, ls, rs))
    requires ArePairBatches(p, pkg, tables, filter, rightKey, Pairs(lefts, rights, |lefts|), batches)
    ensures NumberedBatches(batches)
    ensures ChunksDecoded(p, Some(PairCondition(pkg, where)), ResultTable(pkg, tables), pkg.projectColumns,
                          Singles(JoinedRows(pkg, where, ls, rs)), batches)
  {
    SameCount(lefts, rights, ls, rs, |lefts|);
    var condition, schema := Some(PairCondition(pkg, where)), ResultTable(pkg, tables);
    var rows := JoinedRows(pkg, where, ls, rs);
    forall k | 0 <= k < |batches|
      ensures k < |rows| && batches[k].batchId == ToU32(k)
      ensures ChunkDecoded(p, condition, schema, pkg.projectColumns, [rows[k]], batches[k])
    {
      PairsDecode(p, slotCount, pkg, tables, where, filter, lefts, rights, ls, rs, rightKey, batches, k);
    }
    SinglesDecoded(p, condition, schema, pkg.projectColumns, rows, batches);
  }

  lemma SinglesDecoded(p: OddPrime, where: Option<Expr>, schema: TableSchema, names: seq<string>, rows: seq<Row>,
                       batches: seq<ResultBatch>)
    requires where.Some? ==> IsPredicate(where.value, schema)
    requires Projectable(schema, names) && |batches| == |rows|
    requires forall k :: 0 <= k < |rows| ==> ChunkDecoded(p, where, schema, names, [rows[k]], batches[k])
    ensures ChunksDecoded(p, where, schema, names, Singles(rows), batches)
  {
  }

  /** Join refinement. The batches of the encrypted nested loop - one for each pair,
      |L| * |R| in all, numbered consecutively - decode to the plaintext join: of the
      left-major sequence of all pairs, those whose keys are equal and whose WHERE holds
      modulo p, projected modulo p, whatever the values. */
  lemma JoinCorrect(p: OddPrime, slotCount: nat, pkg: QueryPackage, tables: TableMap, where: Option<Expr>,
                    filter: Option<Circuit>, lefts: seq<StoredChunk>, rights: seq<StoredChunk>, ls: seq<Row>,
                    rs: seq<Row>, rightKey: string, batches: seq<ResultBatch>)
    requires JoinMeant(p, slotCount, pkg, tables, where, filter, lefts, rights, ls, rs)
    requires JoinedAllZpFine(p, pkg, tables, where, JoinedRows(pkg, where, ls, rs))
    requires ArePairBatches(p, pkg, tables, filter, rightKey, Pairs(lefts, rights, |lefts|), batches)
    ensures |batches| == |lefts| * |rights| && NumberedBatches(batches)
    ensures
      var rows := JoinedRows(pkg, where, ls, rs);
      DecodeFirst(batches, |batches|) ==
        Ok(ZpRows(p, Some(PairCondition(pkg, where)), ResultTable(pkg, tables), pkg.projectColumns, rows, |rows|))
  {
    PairsAt(lefts, rights, |lefts|, 0, 0);
    AllPairsDecode(p, slotCount, pkg, tables, where, filter, lefts, rights, ls, rs, rightKey, batches);
    SinglesDecode(p, Some(PairCondition(pkg, where)), ResultTable(pkg, tables), pkg.projectColumns,
                  JoinedRows(pkg, where, ls, rs), batches);
  }

  /** On joined rows that meet the conditions of plaintext execution, that is filtering
      and projecting the pairs. */
  lemma JoinInRange(p: OddPrime, pkg: QueryPackage, tables: TableMap, where: Option<Expr>, rows: seq<Row>)
    requires JoinedAllFine(p, pkg, tables, where, rows)
    ensures JoinedAllZpFine(p, pkg, tables, where, rows)
    ensures
      var condition, schema := Some(PairCondition(pkg, where)), ResultTable(pkg, tables);
      ZpRows(p, condition, schema, pkg.projectColumns, rows, |rows|) ==
      PlainRows(condition, schema, pkg.projectColumns, rows, |rows|)
  {
    var condition, schema := Some(PairCondition(pkg, where)), ResultTable(pkg, tables);
    forall k | 0 <= k < |rows|
      ensures RowFine(p, condition, schema, pkg.projectColumns, rows[k])
      ensures JoinedZpFine(p, pkg, tables, where, rows[k])
    {
      assert JoinedFine(p, pkg, tables, where, rows[k]);
      FineRow(p, condition, schema, pkg.projectColumns, rows[k]);
    }
    ZpRowsInRange(p, condition, schema, pkg.projectColumns, rows, |rows|);
  }
}
