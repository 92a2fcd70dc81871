// Decoding a result batch gives back the projected plaintext rows.

module RowDecode {
  import opened Common
  import opened Catalog
  import opened Ast
  import opened PrimeField
  import opened Masks
  import opened Circuit
  import opened Package
  import opened Encryptor
  import opened Rebuild
  import opened Plain
  import opened Compiler
  import opened Planner
  import opened Execution
  import opened Decoder
  import opened TableQuery

  // ---- Characters ----

  /** Reading a clean string back from its padded codes, from position j on. */
  lemma {:induction false} DecodePadded(p: OddPrime, positions: seq<seq<int>>, s: string, i: nat, j: nat)
    requires CleanString(p, s, |positions|) && j <= |s|
    requires forall k :: 0 <= k < |positions| ==> i < |positions[k]| && positions[k][i] == PaddedCode(s, k)
    ensures DecodeString(positions[j..], i) == Ok(s[j..])
    decreases |s| - j
  {
    if j < |s| {
      DecodePadded(p, positions, s, i, j + 1);
      assert positions[j..][0] == positions[j] && positions[j..][1..] == positions[j + 1..];
      assert s[j..] == [s[j]] + s[j + 1..];
    } else if j < |positions| {
      assert positions[j..][0] == positions[j];
    }
  }

  // ---- Regrouping the columns of a batch ----

  function FullPositions(c: ColumnSchema, columns: Columns, n: nat): seq<seq<int>>
    requires c.kind == STRING && ColumnStored(c, columns)
  {
    seq(c.maxLength, k requires 0 <= k < c.maxLength => Decrypt(columns[PhysicalAt(c, k)], n))
  }

  /** Adding the first j of some columns to d. */
  function AddFirst(d: Decrypted, added: seq<EncryptedColumn>, n: nat, j: nat): Decrypted
    requires j <= |added|
  {
    if j == 0 then d else AddColumn(AddFirst(d, added, n, j - 1), added[j - 1], n)
  }

  lemma {:induction false} DecryptPrefix(a: seq<EncryptedColumn>, b: seq<EncryptedColumn>, n: nat, k: nat)
    requires k <= |a|
    ensures DecryptFirst(a + b, n, k) == DecryptFirst(a, n, k)
  {
    if k > 0 {
      DecryptPrefix(a, b, n, k - 1);
    }
  }

  lemma {:induction false} DecryptConcat(a: seq<EncryptedColumn>, b: seq<EncryptedColumn>, n: nat, j: nat)
    requires j <= |b|
    ensures DecryptFirst(a + b, n, |a| + j) == AddFirst(DecryptFirst(a, n, |a|), b, n, j)
  {
    if j == 0 {
      DecryptPrefix(a, b, n, |a|);
    } else {
      DecryptConcat(a, b, n, j - 1);
    }
  }

  lemma DecryptAppend(a: seq<EncryptedColumn>, b: seq<EncryptedColumn>, n: nat)
    ensures DecryptFirst(a + b, n, |a + b|) == AddFirst(DecryptFirst(a, n, |a|), b, n, |b|)
  {
    DecryptConcat(a, b, n, |b|);
  }

  lemma StoreNext(full: seq<seq<int>>, j: nat)
    requires j < |full|
    ensures StoreAt(full[..j], j, full[j]) == full[..j + 1]
    ensures StoreAt(full, j, full[j]) == full
  {
  }

  /** The positions of one string column arrive in order; listing a column twice
      changes nothing. */
  lemma {:induction false} AddStringColumn(d: Decrypted, c: ColumnSchema, columns: Columns, n: nat, j: nat)
    requires c.kind == STRING && ColumnStored(c, columns) && 0 < j <= c.maxLength
    requires c.name in d.strings ==> d.strings[c.name] == FullPositions(c, columns, n)
    ensures AddFirst(d, ColumnResults(c, columns), n, j) ==
      d.(strings := d.strings[c.name := if c.name in d.strings then FullPositions(c, columns, n)
                                        else FullPositions(c, columns, n)[..j]])
  {
    var full := FullPositions(c, columns, n);
    StoreNext(full, j - 1);
    assert ColumnResults(c, columns)[j - 1].ciphertext == columns[PhysicalAt(c, j - 1)];
    if j == 1 {
      assert AddFirst(d, ColumnResults(c, columns), n, 0) == d;
      assert full[..0] == [];
    } else {
      AddStringColumn(d, c, columns, n, j - 1);
    }
  }

  /** c is among the first k names. */
  predicate Listed(names: seq<string>, k: nat, c: string)
    requires k <= |names|
  {
    k > 0 && (names[k - 1] == c || Listed(names, k - 1, c))
  }

  lemma {:induction false} ListedMeaning(names: seq<string>, k: nat, c: string)
    requires k <= |names|
    ensures Listed(names, k, c) <==> exists j :: 0 <= j < k && names[j] == c
  {
    if k > 0 {
      ListedMeaning(names, k - 1, c);
    }
  }

  /** d groups exactly the first k names. */
  ghost predicate Groups(d: Decrypted, schema: TableSchema, names: seq<string>, columns: Columns, n: nat, k: nat)
    requires AllKnown(schema, names) && AllProjectable(schema, names, columns) && k <= |names|
  {
    && (forall c :: c in d.ints <==> Listed(names, k, c) && schema.HasColumn(c) && schema.Column(c).kind != STRING)
    && (forall c :: c in d.strings <==> Listed(names, k, c) && schema.HasColumn(c) && schema.Column(c).kind == STRING)
    && forall j :: 0 <= j < k ==> GroupedRight(d, schema.Column(names[j]), columns, n)
  }

  ghost predicate GroupedRight(d: Decrypted, c: ColumnSchema, columns: Columns, n: nat)
    requires ColumnStored(c, columns)
  {
    if c.kind == STRING then c.name in d.strings && d.strings[c.name] == FullPositions(c, columns, n)
    else c.name in d.ints && d.ints[c.name] == Decrypt(columns[PhysicalAt(c, 0)], n)
  }

  /** One more name: what adding its columns does to the grouping. */
  lemma AddName(d: Decrypted, c: ColumnSchema, columns: Columns, n: nat)
    requires ColumnStored(c, columns) && (c.kind == STRING ==> c.maxLength > 0)
    requires c.kind == STRING && c.name in d.strings ==> d.strings[c.name] == FullPositions(c, columns, n)
    ensures AddFirst(d, ColumnResults(c, columns), n, |ColumnResults(c, columns)|) ==
      if c.kind == STRING then d.(strings := d.strings[c.name := FullPositions(c, columns, n)])
      else d.(ints := d.ints[c.name := Decrypt(columns[PhysicalAt(c, 0)], n)])
  {
    if c.kind == STRING {
      AddStringColumn(d, c, columns, n, c.maxLength);
      assert FullPositions(c, columns, n)[..c.maxLength] == FullPositions(c, columns, n);
    } else {
      assert AddFirst(d, ColumnResults(c, columns), n, 0) == d;
    }
  }

  lemma GroupsStep(d: Decrypted, e: Decrypted, schema: TableSchema, names: seq<string>, columns: Columns, n: nat,
                   k: nat)
    requires AllKnown(schema, names) && AllProjectable(schema, names, columns) && 0 < k <= |names|
    requires Groups(d, schema, names, columns, n, k - 1)
    requires
      var c := schema.Column(names[k - 1]);
      e == if c.kind == STRING then d.(strings := d.strings[c.name := FullPositions(c, columns, n)])
           else d.(ints := d.ints[c.name := Decrypt(columns[PhysicalAt(c, 0)], n)])
    ensures Groups(e, schema, names, columns, n, k)
  {
    forall j | 0 <= j < k
      ensures GroupedRight(e, schema.Column(names[j]), columns, n)
    {
      if j < k - 1 {
        assert GroupedRight(d, schema.Column(names[j]), columns, n);
      }
    }
  }

  lemma GroupsRepeat(d: Decrypted, schema: TableSchema, names: seq<string>, columns: Columns, n: nat, k: nat)
    requires AllKnown(schema, names) && AllProjectable(schema, names, columns) && 0 < k <= |names|
    requires Groups(d, schema, names, columns, n, k - 1)
    requires schema.Column(names[k - 1]).kind == STRING && names[k - 1] in d.strings
    ensures d.strings[names[k - 1]] == FullPositions(schema.Column(names[k - 1]), columns, n)
  {
    ListedMeaning(names, k - 1, names[k - 1]);
    var j :| 0 <= j < k - 1 && names[j] == names[k - 1];
    assert GroupedRight(d, schema.Column(names[j]), columns, n);
  }

  lemma GroupsSnoc(d: Decrypted, schema: TableSchema, names: seq<string>, columns: Columns, n: nat, k: nat)
    requires Projectable(schema, names) && AllKnown(schema, names) && AllProjectable(schema, names, columns)
    requires 0 < k <= |names| && Groups(d, schema, names, columns, n, k - 1)
    ensures
      var added := ColumnResults(schema.Column(names[k - 1]), columns);
      Groups(AddFirst(d, added, n, |added|), schema, names, columns, n, k)
  {
    var c := schema.Column(names[k - 1]);
    if c.kind == STRING && c.name in d.strings {
      GroupsRepeat(d, schema, names, columns, n, k);
    }
    AddName(d, c, columns, n);
    GroupsStep(d, AddFirst(d, ColumnResults(c, columns), n, |ColumnResults(c, columns)|), schema, names, columns, n, k);
  }

  function DecryptProjection(schema: TableSchema, names: seq<string>, columns: Columns, n: nat, k: nat): Decrypted
    requires AllKnown(schema, names) && AllProjectable(schema, names, columns) && k <= |names|
  {
    var all := ProjectFirst(schema, names, columns, k);
    DecryptFirst(all, n, |all|)
  }

  lemma DecryptSnoc(schema: TableSchema, names: seq<string>, columns: Columns, n: nat, k: nat)
    requires AllKnown(schema, names) && AllProjectable(schema, names, columns) && 0 < k <= |names|
    ensures
      var added := ColumnResults(schema.Column(names[k - 1]), columns);
      DecryptProjection(schema, names, columns, n, k) ==
        AddFirst(DecryptProjection(schema, names, columns, n, k - 1), added, n, |added|)
  {
    DecryptAppend(ProjectFirst(schema, names, columns, k - 1), ColumnResults(schema.Column(names[k - 1]), columns), n);
  }

  lemma NothingGrouped(schema: TableSchema, names: seq<string>, columns: Columns, n: nat)
    requires AllKnown(schema, names) && AllProjectable(schema, names, columns)
    ensures Groups(DecryptProjection(schema, names, columns, n, 0), schema, names, columns, n, 0)
  {
    assert DecryptProjection(schema, names, columns, n, 0) == Decrypted(map[], map[]);
  }

  lemma ProjectionGroupsSnoc(schema: TableSchema, names: seq<string>, columns: Columns, n: nat, k: nat)
    requires Projectable(schema, names) && AllKnown(schema, names) && AllProjectable(schema, names, columns)
    requires 0 < k <= |names|
    requires Groups(DecryptProjection(schema, names, columns, n, k - 1), schema, names, columns, n, k - 1)
    ensures Groups(DecryptProjection(schema, names, columns, n, k), schema, names, columns, n, k)
  {
    GroupsSnoc(DecryptProjection(schema, names, columns, n, k - 1), schema, names, columns, n, k);
    DecryptSnoc(schema, names, columns, n, k);
  }

  /** Decrypting a projection groups exactly the projected names. */
  lemma {:induction false} ProjectionGroups(schema: TableSchema, names: seq<string>, columns: Columns, n: nat, k: nat)
    requires Projectable(schema, names) && AllKnown(schema, names) && AllProjectable(schema, names, columns)
    requires k <= |names|
    ensures Groups(DecryptProjection(schema, names, columns, n, k), schema, names, columns, n, k)
  {
    if k == 0 {
      NothingGrouped(schema, names, columns, n);
    } else {
      ProjectionGroups(schema, names, columns, n, k - 1);
      ProjectionGroupsSnoc(schema, names, columns, n, k);
    }
  }

  // ---- One row ----

  lemma ColumnDecodes(p: OddPrime, c: ColumnSchema, columns: Columns, rows: seq<Row>, i: nat, d: Decrypted)
    requires ColumnSlots(p, columns, rows, c) && i < |rows| && ColumnStored(c, columns)
    requires GroupedRight(d, c, columns, |rows|)
    requires c.kind == STRING ==> CleanString(p, StringAt(rows[i], c.name), c.maxLength)
    ensures c.kind == STRING ==> DecodeString(d.strings[c.name], i) == Ok(StringAt(rows[i], c.name))
    ensures c.kind != STRING ==> i < |d.ints[c.name]| && d.ints[c.name][i] == IntAt(rows[i], c.name) % p
  {
    if c.kind == STRING {
      var full, s := FullPositions(c, columns, |rows|), StringAt(rows[i], c.name);
      forall k | 0 <= k < c.maxLength
        ensures i < |full[k]| && full[k][i] == PaddedCode(s, k)
      {
        assert CharSlots(p, columns, rows, c.name, k);
        SmallRemainder(p, PaddedCode(s, k));
      }
      DecodePadded(p, full, s, i, 0);
      assert full[0..] == full && s[0..] == s;
    }
  }

  ghost predicate NameDecodes(p: OddPrime, d: Decrypted, schema: TableSchema, c: string, row: Row, i: nat)
    requires schema.HasColumn(c)
  {
    if schema.Column(c).kind == STRING then
      c in d.strings && DecodeString(d.strings[c], i) == Ok(StringAt(row, c))
    else c in d.ints && i < |d.ints[c]| && d.ints[c][i] == IntAt(row, c) % p
  }

  lemma NameDecoded(p: OddPrime, schema: TableSchema, names: seq<string>, columns: Columns, rows: seq<Row>, i: nat,
                    d: Decrypted, k: nat)
    requires Projectable(schema, names) && AllKnown(schema, names) && AllProjectable(schema, names, columns)
    requires i < |rows| && CleanStrings(p, schema, names, rows[i]) && k < |names|
    requires ColumnSlots(p, columns, rows, schema.Column(names[k]))
    requires Groups(d, schema, names, columns, |rows|, |names|)
    ensures NameDecodes(p, d, schema, names[k], rows[i], i)
  {
    assert GroupedRight(d, schema.Column(names[k]), columns, |rows|);
    ColumnDecodes(p, schema.Column(names[k]), columns, rows, i, d);
  }

  ghost predicate ListsNames(d: Decrypted, schema: TableSchema, names: seq<string>)
    requires Projectable(schema, names)
  {
    && (forall c :: c in d.ints <==> c in names && schema.Column(c).kind != STRING)
    && (forall c :: c in d.strings <==> c in names && schema.Column(c).kind == STRING)
  }

  lemma StringsFromNames(p: OddPrime, schema: TableSchema, names: seq<string>, row: Row, i: nat, d: Decrypted)
    requires Projectable(schema, names) && ListsNames(d, schema, names)
    requires forall k :: 0 <= k < |names| ==> NameDecodes(p, d, schema, names[k], row, i)
    ensures RowDecodes(d, i)
    ensures forall c :: c in d.strings ==> DecodeString(d.strings[c], i) == Ok(StringAt(row, c))
  {
    forall c | c in d.strings
      ensures DecodeString(d.strings[c], i) == Ok(StringAt(row, c))
    {
      var k :| 0 <= k < |names| && names[k] == c;
      assert NameDecodes(p, d, schema, names[k], row, i);
    }
  }

  lemma IntsFromNames(p: OddPrime, schema: TableSchema, names: seq<string>, row: Row, i: nat, d: Decrypted)
    requires Projectable(schema, names) && ListsNames(d, schema, names)
    requires forall k :: 0 <= k < |names| ==> NameDecodes(p, d, schema, names[k], row, i)
    ensures forall c :: c in d.ints ==> i < |d.ints[c]| && d.ints[c][i] == IntAt(row, c) % p
  {
    forall c | c in d.ints
      ensures i < |d.ints[c]| && d.ints[c][i] == IntAt(row, c) % p
    {
      var k :| 0 <= k < |names| && names[k] == c;
      assert NameDecodes(p, d, schema, names[k], row, i);
    }
  }

  lemma RowFromNames(p: OddPrime, schema: TableSchema, names: seq<string>, row: Row, n: nat, i: nat, d: Decrypted)
    requires Projectable(schema, names) && ListsNames(d, schema, names) && i < n && Rectangular(d, n)
    requires RowDecodes(d, i)
    requires forall c :: c in d.strings ==> DecodeString(d.strings[c], i) == Ok(StringAt(row, c))
    requires forall c :: c in d.ints ==> d.ints[c][i] == IntAt(row, c) % p
    ensures RowResult(d, n, i) == Ok(ZpProjectRow(p, schema, names, row))
  {
    SameInts(p, schema, names, row, n, i, d);
    assert RowAt(d, n, i).stringValues == ZpProjectRow(p, schema, names, row).stringValues;
  }

  lemma SameInts(p: OddPrime, schema: TableSchema, names: seq<string>, row: Row, n: nat, i: nat, d: Decrypted)
    requires Projectable(schema, names) && ListsNames(d, schema, names) && i < n && Rectangular(d, n)
    requires RowDecodes(d, i)
    requires forall c :: c in d.ints ==> d.ints[c][i] == IntAt(row, c) % p
    ensures RowAt(d, n, i).values == ZpProjectRow(p, schema, names, row).values
  {
  }

  lemma RowDecoded(p: OddPrime, schema: TableSchema, names: seq<string>, columns: Columns, rows: seq<Row>, i: nat,
                   d: Decrypted)
    requires Projectable(schema, names) && AllKnown(schema, names) && AllProjectable(schema, names, columns)
    requires i < |rows| && CleanStrings(p, schema, names, rows[i])
    requires forall k :: 0 <= k < |names| ==> ColumnSlots(p, columns, rows, schema.Column(names[k]))
    requires Groups(d, schema, names, columns, |rows|, |names|) && Rectangular(d, |rows|)
    ensures RowResult(d, |rows|, i) == Ok(ZpProjectRow(p, schema, names, rows[i]))
  {
    forall c
      ensures Listed(names, |names|, c) <==> c in names
    {
      ListedMeaning(names, |names|, c);
    }
    forall k | 0 <= k < |names|
      ensures NameDecodes(p, d, schema, names[k], rows[i], i)
    {
      NameDecoded(p, schema, names, columns, rows, i, d, k);
    }
    StringsFromNames(p, schema, names, rows[i], i, d);
    IntsFromNames(p, schema, names, rows[i], i, d);
    RowFromNames(p, schema, names, rows[i], |rows|, i, d);
  }

  // ---- One batch ----

  lemma {:induction false} SelectedRows(p: OddPrime, where: Option<Expr>, schema: TableSchema, names: seq<string>,
                                        rows: seq<Row>, d: Decrypted, mask: seq<int>, k: nat)
    requires where.Some? ==> IsPredicate(where.value, schema)
    requires Projectable(schema, names) && Rectangular(d, |rows|) && k <= |rows|
    requires forall i :: 0 <= i < |rows| ==> (Selected(mask, i) <==> ZpKeeps(p, where, schema, rows[i]))
    requires forall i :: 0 <= i < |rows| && ZpKeeps(p, where, schema, rows[i]) ==>
      RowResult(d, |rows|, i) == Ok(ZpProjectRow(p, schema, names, rows[i]))
    ensures RowsFirst(d, mask, |rows|, k) == Ok(ZpRows(p, where, schema, names, rows, k))
  {
    if k > 0 {
      SelectedRows(p, where, schema, names, rows, d, mask, k - 1);
    }
  }

  /** The server's filter for a WHERE clause. */
  ghost predicate FilterFor(p: OddPrime, slotCount: nat, where: Option<Expr>, schema: TableSchema,
                            filter: Option<Circuit>)
  {
    match where
    case None => filter == None
    case Some(e) =>
      && Compilable(e, schema) && WidthsPositive(e, schema)
      && filter == Some(Translate(p, slotCount, e, schema))
  }

  /** Names that the planner lists for the scan, and a filter that runs over them. */
  predicate Scannable(schema: TableSchema, pkg: QueryPackage, where: Option<Expr>) {
    && AllKnown(schema, pkg.scanColumns)
    && Projectable(schema, pkg.projectColumns)
    && (forall k :: 0 <= k < |pkg.projectColumns| ==> pkg.projectColumns[k] in pkg.scanColumns)
    && (where.Some? ==> Runnable(where.value, schema) && Covers(pkg.scanColumns, where.value))
  }

  predicate Planned(schema: TableSchema, pkg: QueryPackage, where: Option<Expr>) {
    Scannable(schema, pkg, where) && (where.Some? ==> TypedPredicate(where.value, schema))
  }

  lemma MaskSelects(p: OddPrime, slotCount: nat, e: Expr, schema: TableSchema, scan: seq<string>, chunk: StoredChunk,
                    rows: seq<Row>, c: Circuit, i: nat)
    requires AllKnown(schema, scan) && Stores(p, schema, chunk, rows) && i < |rows| <= slotCount
    requires TypedPredicate(e, schema) && Covers(scan, e)
    requires IsPredicate(e, schema)
    requires Compilable(e, schema) && WidthsPositive(e, schema) && c == Translate(p, slotCount, e, schema)
    ensures
      var scanned := Restrict(PhysicalList(schema, scan), chunk.columns);
      Yields(p, c, scanned, |rows|, i, Bit(ZpEval(p, e, schema, rows[i])))
  {
    ScanHoldsRow(p, schema, scan, chunk, rows, e, i);
    CircuitComputesZp(p, slotCount, e, schema, Restrict(PhysicalList(schema, scan), chunk.columns), |rows|, i, rows[i]);
  }

  lemma RowsDecoded(p: OddPrime, schema: TableSchema, scan: seq<string>, names: seq<string>, chunk: StoredChunk,
                    rows: seq<Row>, d: Decrypted, i: nat)
    requires AllKnown(schema, scan) && Projectable(schema, names) && Stores(p, schema, chunk, rows)
    requires forall k :: 0 <= k < |names| ==> names[k] in scan
    requires i < |rows| && CleanStrings(p, schema, names, rows[i]) && Rectangular(d, |rows|)
    requires
      var scanned := Restrict(PhysicalList(schema, scan), chunk.columns);
      AllProjectable(schema, names, scanned) && Groups(d, schema, names, scanned, |rows|, |names|)
    ensures RowResult(d, |rows|, i) == Ok(ZpProjectRow(p, schema, names, rows[i]))
  {
    var scanned := Restrict(PhysicalList(schema, scan), chunk.columns);
    forall k | 0 <= k < |names|
      ensures ColumnSlots(p, scanned, rows, schema.Column(names[k]))
    {
      RestrictKeeps(p, schema, scan, chunk, rows, names[k]);
    }
    RowDecoded(p, schema, names, scanned, rows, i, d);
  }

  lemma MaskDecrypted(p: OddPrime, slotCount: nat, schema: TableSchema, pkg: QueryPackage, where: Option<Expr>,
                      filter: Option<Circuit>, chunk: StoredChunk, rows: seq<Row>, id: nat, i: nat)
    requires where.Some? ==> IsPredicate(where.value, schema)
    requires Planned(schema, pkg, where) && FilterFor(p, slotCount, where, schema, filter)
    requires Stores(p, schema, chunk, rows) && i < |rows| <= slotCount
    requires Executable(schema, pkg, filter, chunk)
    ensures Selected(DecryptMask(BatchResult(p, schema, pkg, filter, chunk, id)), i) <==>
      ZpKeeps(p, where, schema, rows[i])
  {
    if where.Some? {
      MaskSelects(p, slotCount, where.value, schema, pkg.scanColumns, chunk, rows, filter.value, i);
    }
  }

  /** One chunk, whatever its values: the batch the server produces decodes to the rows
      that the modular filter keeps, integers projected modulo p. */
  lemma ChunkDecodes(p: OddPrime, slotCount: nat, schema: TableSchema, pkg: QueryPackage, where: Option<Expr>,
                     filter: Option<Circuit>, chunk: StoredChunk, rows: seq<Row>, id: nat)
    requires where.Some? ==> IsPredicate(where.value, schema)
    requires Planned(schema, pkg, where) && FilterFor(p, slotCount, where, schema, filter)
    requires Stores(p, schema, chunk, rows) && |rows| <= slotCount
    requires forall i :: 0 <= i < |rows| ==> ZpFine(p, where, schema, pkg.projectColumns, rows[i])
    requires Executable(schema, pkg, filter, chunk)
    ensures DecodeBatch(BatchResult(p, schema, pkg, filter, chunk, id)) ==
      Ok(ZpRows(p, where, schema, pkg.projectColumns, rows, |rows|))
  {
    var names := pkg.projectColumns;
    var scanned := Restrict(PhysicalList(schema, pkg.scanColumns), chunk.columns);
    var batch := BatchResult(p, schema, pkg, filter, chunk, id);
    var d, mask := DecryptColumns(batch), DecryptMask(batch);
    ProjectionGroups(schema, names, scanned, |rows|, |names|);
    forall i | 0 <= i < |rows| && ZpKeeps(p, where, schema, rows[i])
      ensures RowResult(d, |rows|, i) == Ok(ZpProjectRow(p, schema, names, rows[i]))
    {
      assert ZpFine(p, where, schema, names, rows[i]);
      RowsDecoded(p, schema, pkg.scanColumns, names, chunk, rows, d, i);
    }
    forall i | 0 <= i < |rows|
      ensures Selected(mask, i) <==> ZpKeeps(p, where, schema, rows[i])
    {
      MaskDecrypted(p, slotCount, schema, pkg, where, filter, chunk, rows, id, i);
    }
    SelectedRows(p, where, schema, names, rows, d, mask, |rows|);
  }

  // ---- The scan of a planned query never lacks a column ----

  lemma SlotsStored(p: OddPrime, columns: Columns, rows: seq<Row>, c: ColumnSchema)
    requires ColumnSlots(p, columns, rows, c)
    ensures ColumnStored(c, columns)
  {
    forall k | 0 <= k < PhysicalWidth(c)
      ensures PhysicalAt(c, k) in columns
    {
      if c.kind == STRING {
        assert CharSlots(p, columns, rows, c.name, k);
      }
    }
  }

  lemma {:induction false} ScanStored(p: OddPrime, schema: TableSchema, names: seq<string>, chunk: StoredChunk,
                                      rows: seq<Row>, k: nat)
    requires AllKnown(schema, names) && Stores(p, schema, chunk, rows) && k <= |names|
    ensures AllStored(PhysicalFirst(schema, names, k), chunk.columns)
  {
    if k > 0 {
      ScanStored(p, schema, names, chunk, rows, k - 1);
      SlotsStored(p, chunk.columns, rows, schema.Column(names[k - 1]));
    }
  }

  lemma StringTestEvaluable(p: OddPrime, slotCount: nat, op: CmpOp, c: ColumnSchema, value: string, columns: Columns,
                            rows: seq<Row>)
    requires ColumnSlots(p, columns, rows, c) && c.kind == STRING && c.maxLength > 0 && |rows| <= slotCount
    ensures Evaluable(StringTest(p, slotCount, op, c.name, value, c.maxLength), columns, |rows|)
  {
    var tests := StringTests(p, slotCount, c.name, value, c.maxLength);
    forall k | 0 <= k < c.maxLength
      ensures Evaluable(tests[k], columns, |rows|)
    {
      assert CharSlots(p, columns, rows, c.name, k);
    }
    CombineEvaluable(tests, 0, c.maxLength, columns, |rows|);
  }

  lemma {:induction false} FilterEvaluable(p: OddPrime, slotCount: nat, schema: TableSchema, scan: seq<string>,
                                           chunk: StoredChunk, rows: seq<Row>, e: Expr)
    requires AllKnown(schema, scan) && Stores(p, schema, chunk, rows) && |rows| <= slotCount
    requires Runnable(e, schema) && Covers(scan, e)
    ensures Compilable(e, schema) && WidthsPositive(e, schema)
    ensures Evaluable(Translate(p, slotCount, e, schema), Restrict(PhysicalList(schema, scan), chunk.columns), |rows|)
  {
    RunnableCompiles(e, schema);
    if IsBinary(e) {
      FilterEvaluable(p, slotCount, schema, scan, chunk, rows, e.left);
      FilterEvaluable(p, slotCount, schema, scan, chunk, rows, e.right);
      BinaryEvaluable(BinaryKind(e), Translate(p, slotCount, e.left, schema), Translate(p, slotCount, e.right, schema),
                      Restrict(PhysicalList(schema, scan), chunk.columns), |rows|);
    } else if e.Not? {
      FilterEvaluable(p, slotCount, schema, scan, chunk, rows, e.left);
    } else {
      LeafEvaluable(p, slotCount, schema, scan, chunk, rows, e);
    }
  }

  lemma LeafEvaluable(p: OddPrime, slotCount: nat, schema: TableSchema, scan: seq<string>, chunk: StoredChunk,
                      rows: seq<Row>, e: Expr)
    requires AllKnown(schema, scan) && Stores(p, schema, chunk, rows) && |rows| <= slotCount
    requires Runnable(e, schema) && Covers(scan, e) && !IsBinary(e) && !e.Not?
    requires Compilable(e, schema) && WidthsPositive(e, schema)
    ensures Evaluable(Translate(p, slotCount, e, schema), Restrict(PhysicalList(schema, scan), chunk.columns), |rows|)
  {
    var scanned := Restrict(PhysicalList(schema, scan), chunk.columns);
    if e.Compare? {
      var c := schema.Column(StringColumn(e.left, e.right));
      BareOfUnqualified(StringColumn(e.left, e.right));
      RestrictKeeps(p, schema, scan, chunk, rows, c.name);
      StringTestEvaluable(p, slotCount, e.op, c, StringOperand(e.left, e.right), scanned, rows);
    } else if e.ColumnRef? {
      RestrictKeeps(p, schema, scan, chunk, rows, e.name);
    }
  }

  lemma BinaryEvaluable(kind: PredNodeKind, l: Circuit, r: Circuit, columns: Columns, n: nat)
    ensures Evaluable(BinaryCircuit(kind, l, r), columns, n) <==> Evaluable(l, columns, n) && Evaluable(r, columns, n)
  {
  }

  lemma ChunkExecutable(p: OddPrime, slotCount: nat, schema: TableSchema, pkg: QueryPackage, where: Option<Expr>,
                        filter: Option<Circuit>, chunk: StoredChunk, rows: seq<Row>)
    requires Scannable(schema, pkg, where) && FilterFor(p, slotCount, where, schema, filter)
    requires Stores(p, schema, chunk, rows) && |rows| <= slotCount
    ensures Executable(schema, pkg, filter, chunk)
  {
    var scanned := Restrict(PhysicalList(schema, pkg.scanColumns), chunk.columns);
    ScanStored(p, schema, pkg.scanColumns, chunk, rows, |pkg.scanColumns|);
    forall k | 0 <= k < |pkg.projectColumns|
      ensures ColumnStored(schema.Column(pkg.projectColumns[k]), scanned)
    {
      RestrictKeeps(p, schema, pkg.scanColumns, chunk, rows, pkg.projectColumns[k]);
      SlotsStored(p, scanned, rows, schema.Column(pkg.projectColumns[k]));
    }
    if where.Some? {
      FilterEvaluable(p, slotCount, schema, pkg.scanColumns, chunk, rows, where.value);
    }
  }
}
