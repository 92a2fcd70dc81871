// Encrypted execution and decoding of one table against plaintext evaluation.

module TableQuery {
  import opened Common
  import opened Catalog
  import opened Ast
  import opened PrimeField
  import opened Masks
  import opened Circuit
  import opened Encryptor
  import opened Rebuild
  import opened Plain
  import opened Compiler
  import opened Planner
  import opened Execution
  import opened Decoder
  import opened SortLimit

  // ---- What a chunk stores ----

  ghost predicate IntSlots(p: OddPrime, columns: Columns, rows: seq<Row>, name: string) {
    && Plain(name) in columns
    && |rows| <= |columns[Plain(name)].slots|
    && forall i :: 0 <= i < |rows| ==> columns[Plain(name)].slots[i] == IntAt(rows[i], name) % p
  }

  ghost predicate CharSlots(p: OddPrime, columns: Columns, rows: seq<Row>, name: string, k: nat) {
    && CharAt(name, k) in columns
    && |rows| <= |columns[CharAt(name, k)].slots|
    && forall i :: 0 <= i < |rows| ==> columns[CharAt(name, k)].slots[i] == PaddedCode(StringAt(rows[i], name), k) % p
  }

  ghost predicate ColumnSlots(p: OddPrime, columns: Columns, rows: seq<Row>, c: ColumnSchema) {
    if c.kind == STRING then forall k :: 0 <= k < c.maxLength ==> CharSlots(p, columns, rows, c.name, k)
    else IntSlots(p, columns, rows, c.name)
  }

  /** The chunk holds the encrypted rows, strings one zero-padded column per position. */
  ghost predicate Stores(p: OddPrime, schema: TableSchema, chunk: StoredChunk, rows: seq<Row>) {
    && chunk.rowCount == |rows|
    && forall name :: schema.HasColumn(name) ==> ColumnSlots(p, chunk.columns, rows, schema.Column(name))
  }

  // ---- Which queries and rows ----

  predicate IntColumn(schema: TableSchema, name: string) {
    schema.HasColumn(name) && schema.Column(name).kind != STRING
  }

  predicate StringColumnOf(schema: TableSchema, name: string) {
    schema.HasColumn(name) && schema.Column(name).kind == STRING && schema.Column(name).maxLength > 0
  }

  predicate TypedTerm(e: Expr, schema: TableSchema) {
    e.IntLiteral? || (e.ColumnRef? && !Qualified(e.name) && IntColumn(schema, e.name))
  }

  /** A predicate over unqualified columns of the schema, used at their types. */
  predicate TypedPredicate(e: Expr, schema: TableSchema) {
    match e
    case ColumnRef(_) => false
    case IntLiteral(_) => false
    case StringLiteral(_) => false
    case Compare(op, l, r) =>
      if IsStringComparison(l, r) then
        && (op == Equal || op == NotEqual)
        && !Qualified(StringColumn(l, r)) && StringColumnOf(schema, StringColumn(l, r))
      else TypedTerm(l, schema) && TypedTerm(r, schema)
    case And(l, r) => TypedPredicate(l, schema) && TypedPredicate(r, schema)
    case Or(l, r) => TypedPredicate(l, schema) && TypedPredicate(r, schema)
    case Not(l) => TypedPredicate(l, schema)
  }

  lemma {:induction false} TypedIsPredicate(e: Expr, schema: TableSchema)
    requires TypedPredicate(e, schema)
    ensures IsPredicate(e, schema)
  {
    match e
    case Compare(op, l, r) =>
    case And(l, r) => TypedIsPredicate(l, schema); TypedIsPredicate(r, schema);
    case Or(l, r) => TypedIsPredicate(l, schema); TypedIsPredicate(r, schema);
    case Not(l) => TypedIsPredicate(l, schema);
  }

  /** Expressions the server can evaluate over the schema's stored columns: unqualified
      integer columns, integers and string comparisons, under any operators. Typed
      predicates are such; so is a bare integer that stands for a truth value. */
  predicate Runnable(e: Expr, schema: TableSchema) {
    match e
    case ColumnRef(name) => !Qualified(name) && IntColumn(schema, name)
    case IntLiteral(_) => true
    case StringLiteral(_) => false
    case Compare(op, l, r) =>
      if IsStringComparison(l, r) then
        && (op == Equal || op == NotEqual)
        && !Qualified(StringColumn(l, r)) && StringColumnOf(schema, StringColumn(l, r))
      else Runnable(l, schema) && Runnable(r, schema)
    case And(l, r) => Runnable(l, schema) && Runnable(r, schema)
    case Or(l, r) => Runnable(l, schema) && Runnable(r, schema)
    case Not(l) => Runnable(l, schema)
  }

  lemma {:induction false} TypedRunnable(e: Expr, schema: TableSchema)
    requires TypedPredicate(e, schema)
    ensures Runnable(e, schema)
  {
    match e
    case Compare(op, l, r) =>
    case And(l, r) => TypedRunnable(l, schema); TypedRunnable(r, schema);
    case Or(l, r) => TypedRunnable(l, schema); TypedRunnable(r, schema);
    case Not(l) => TypedRunnable(l, schema);
  }

  lemma {:induction false} RunnableCompiles(e: Expr, schema: TableSchema)
    requires Runnable(e, schema)
    ensures Compilable(e, schema) && WidthsPositive(e, schema)
  {
    if IsBinary(e) {
      RunnableCompiles(e.left, schema);
      RunnableCompiles(e.right, schema);
    } else if e.Not? {
      RunnableCompiles(e.left, schema);
    } else if e.Compare? {
      BareOfUnqualified(StringColumn(e.left, e.right));
    }
  }

  /** Columns that can be projected: any integer column, and string columns of
      positive width. */
  predicate Projectable(schema: TableSchema, names: seq<string>) {
    forall k :: 0 <= k < |names| ==> IntColumn(schema, names[k]) || StringColumnOf(schema, names[k])
  }

  /** Values the modulus and the ASCII decoder can carry. */
  predicate Decryptable(p: OddPrime, schema: TableSchema, names: seq<string>, row: Row)
    requires Projectable(schema, names)
  {
    forall k :: 0 <= k < |names| ==>
      if schema.Column(names[k]).kind == STRING then
        CleanString(p, StringAt(row, names[k]), schema.Column(names[k]).maxLength)
      else 0 <= IntAt(row, names[k]) < p
  }

  /** ASCII, no NUL, short enough for the column, and codes below the modulus. */
  predicate CleanString(p: OddPrime, s: string, width: nat) {
    |s| <= width && forall k :: 0 <= k < |s| ==> 0 < Code(s[k]) <= 127 && Code(s[k]) < p
  }

  // ---- Plaintext execution ----

  function ProjectRow(schema: TableSchema, names: seq<string>, row: Row): ResultRow
    requires Projectable(schema, names)
  {
    ResultRow(map c | c in names && schema.Column(c).kind != STRING :: IntAt(row, c),
              map c | c in names && schema.Column(c).kind == STRING :: StringAt(row, c))
  }

  predicate Keeps(where: Option<Expr>, schema: TableSchema, row: Row)
    requires where.Some? ==> IsPredicate(where.value, schema)
  {
    where.None? || EvalPlain(where.value, schema, row)
  }

  /** Filter and project, in order. */
  function PlainRows(where: Option<Expr>, schema: TableSchema, names: seq<string>, rows: seq<Row>, k: nat)
    : seq<ResultRow>
    requires where.Some? ==> IsPredicate(where.value, schema)
    requires Projectable(schema, names) && k <= |rows|
  {
    if k == 0 then []
    else if Keeps(where, schema, rows[k - 1]) then
      PlainRows(where, schema, names, rows, k - 1) + [ProjectRow(schema, names, rows[k - 1])]
    else PlainRows(where, schema, names, rows, k - 1)
  }

  // ---- Execution modulo p, whatever the values ----

  function ZpProjectRow(p: OddPrime, schema: TableSchema, names: seq<string>, row: Row): ResultRow
    requires Projectable(schema, names)
  {
    ResultRow(map c | c in names && schema.Column(c).kind != STRING :: IntAt(row, c) % p,
              map c | c in names && schema.Column(c).kind == STRING :: StringAt(row, c))
  }

  predicate ZpKeeps(p: OddPrime, where: Option<Expr>, schema: TableSchema, row: Row)
    requires where.Some? ==> IsPredicate(where.value, schema)
  {
    where.None? || ZpEval(p, where.value, schema, row)
  }

  /** Filter by the modular reading and project integers modulo p, in order. */
  function ZpRows(p: OddPrime, where: Option<Expr>, schema: TableSchema, names: seq<string>, rows: seq<Row>, k: nat)
    : seq<ResultRow>
    requires where.Some? ==> IsPredicate(where.value, schema)
    requires Projectable(schema, names) && k <= |rows|
  {
    if k == 0 then []
    else if ZpKeeps(p, where, schema, rows[k - 1]) then
      ZpRows(p, where, schema, names, rows, k - 1) + [ZpProjectRow(p, schema, names, rows[k - 1])]
    else ZpRows(p, where, schema, names, rows, k - 1)
  }

  /** The rows that the modular filter keeps have strings the ASCII decoder can carry. */
  predicate ZpFine(p: OddPrime, where: Option<Expr>, schema: TableSchema, names: seq<string>, row: Row)
    requires where.Some? ==> IsPredicate(where.value, schema)
    requires Projectable(schema, names)
  {
    ZpKeeps(p, where, schema, row) ==> CleanStrings(p, schema, names, row)
  }

  predicate CleanStrings(p: OddPrime, schema: TableSchema, names: seq<string>, row: Row)
    requires Projectable(schema, names)
  {
    forall k :: 0 <= k < |names| && schema.Column(names[k]).kind == STRING ==>
      CleanString(p, StringAt(row, names[k]), schema.Column(names[k]).maxLength)
  }

  // ---- When it is plaintext execution ----

  /** The query's conditions on a row: comparisons in range and, if WHERE keeps it, a
      projection that can be decrypted. */
  predicate RowFine(p: OddPrime, where: Option<Expr>, schema: TableSchema, names: seq<string>, row: Row)
    requires where.Some? ==> IsPredicate(where.value, schema)
    requires Projectable(schema, names)
  {
    && (where.Some? ==> InRange(p, where.value, schema, row))
    && (Keeps(where, schema, row) ==> Decryptable(p, schema, names, row))
  }

  lemma SameProjected(p: OddPrime, schema: TableSchema, names: seq<string>, row: Row)
    requires Projectable(schema, names) && Decryptable(p, schema, names, row)
    ensures ZpProjectRow(p, schema, names, row) == ProjectRow(schema, names, row) && CleanStrings(p, schema, names, row)
  {
    forall c | c in names && schema.Column(c).kind != STRING
      ensures IntAt(row, c) % p == IntAt(row, c)
    {
      var k :| 0 <= k < |names| && names[k] == c;
      SmallRemainder(p, IntAt(row, names[k]));
    }
  }

  lemma FineRow(p: OddPrime, where: Option<Expr>, schema: TableSchema, names: seq<string>, row: Row)
    requires where.Some? ==> IsPredicate(where.value, schema)
    requires Projectable(schema, names) && RowFine(p, where, schema, names, row)
    ensures ZpFine(p, where, schema, names, row) && (ZpKeeps(p, where, schema, row) <==> Keeps(where, schema, row))
    ensures Keeps(where, schema, row) ==> ZpProjectRow(p, schema, names, row) == ProjectRow(schema, names, row)
  {
    if where.Some? {
      ZpEvalInRange(p, where.value, schema, row);
    }
    if Keeps(where, schema, row) {
      SameProjected(p, schema, names, row);
    }
  }

  /** Execution modulo p is plaintext execution on rows that meet the conditions. */
  lemma {:induction false} ZpRowsInRange(p: OddPrime, where: Option<Expr>, schema: TableSchema, names: seq<string>,
                                         rows: seq<Row>, k: nat)
    requires where.Some? ==> IsPredicate(where.value, schema)
    requires Projectable(schema, names) && k <= |rows|
    requires forall i :: 0 <= i < |rows| ==> RowFine(p, where, schema, names, rows[i])
    ensures ZpRows(p, where, schema, names, rows, k) == PlainRows(where, schema, names, rows, k)
  {
    if k > 0 {
      ZpRowsInRange(p, where, schema, names, rows, k - 1);
      FineRow(p, where, schema, names, rows[k - 1]);
    }
  }

  // ---- Parts of a table ----

  lemma {:induction false} ZpRowsConcat(p: OddPrime, where: Option<Expr>, schema: TableSchema, names: seq<string>,
                                        a: seq<Row>,
                                           b: seq<Row>, k: nat)
    requires where.Some? ==> IsPredicate(where.value, schema)
    requires Projectable(schema, names) && k <= |b|
    ensures ZpRows(p, where, schema, names, a + b, |a| + k) ==
      ZpRows(p, where, schema, names, a, |a|) + ZpRows(p, where, schema, names, b, k)
  {
    if k > 0 {
      ZpRowsConcat(p, where, schema, names, a, b, k - 1);
    } else {
      ZpRowsPrefix(p, where, schema, names, a, b, |a|);
    }
  }

  lemma {:induction false} ZpRowsPrefix(p: OddPrime, where: Option<Expr>, schema: TableSchema, names: seq<string>,
                                        a: seq<Row>,
                                           b: seq<Row>, k: nat)
    requires where.Some? ==> IsPredicate(where.value, schema)
    requires Projectable(schema, names) && k <= |a|
    ensures ZpRows(p, where, schema, names, a + b, k) == ZpRows(p, where, schema, names, a, k)
  {
    if k > 0 {
      ZpRowsPrefix(p, where, schema, names, a, b, k - 1);
    }
  }

  lemma ConcatRows(p: OddPrime, where: Option<Expr>, schema: TableSchema, names: seq<string>, a: seq<Row>, b: seq<Row>)
    requires where.Some? ==> IsPredicate(where.value, schema)
    requires Projectable(schema, names)
    ensures ZpRows(p, where, schema, names, a + b, |a + b|) ==
      ZpRows(p, where, schema, names, a, |a|) + ZpRows(p, where, schema, names, b, |b|)
  {
    ZpRowsConcat(p, where, schema, names, a, b, |b|);
  }

  /** parts[k] is what the modular query makes of rowss[k]. */
  ghost predicate ZpParts(p: OddPrime, where: Option<Expr>, schema: TableSchema, names: seq<string>,
                          rowss: seq<seq<Row>>,
                             parts: seq<seq<ResultRow>>)
    requires where.Some? ==> IsPredicate(where.value, schema)
    requires Projectable(schema, names)
  {
    && |parts| == |rowss|
    && forall k :: 0 <= k < |rowss| ==> parts[k] == ZpRows(p, where, schema, names, rowss[k], |rowss[k]|)
  }

  /** Filtering and projecting part by part gives the whole. */
  lemma {:induction false} ZpRowsFlatten(p: OddPrime, where: Option<Expr>, schema: TableSchema, names: seq<string>,
                                            rowss: seq<seq<Row>>, parts: seq<seq<ResultRow>>, k: nat)
    requires where.Some? ==> IsPredicate(where.value, schema)
    requires Projectable(schema, names) && ZpParts(p, where, schema, names, rowss, parts) && k <= |rowss|
    ensures Flatten(parts, k) == ZpRows(p, where, schema, names, Flatten(rowss, k), |Flatten(rowss, k)|)
  {
    if k > 0 {
      ZpRowsFlatten(p, where, schema, names, rowss, parts, k - 1);
      ConcatRows(p, where, schema, names, Flatten(rowss, k - 1), rowss[k - 1]);
    }
  }

  ghost predicate ChunkDecoded(p: OddPrime, where: Option<Expr>, schema: TableSchema, names: seq<string>,
                               rows: seq<Row>, batch: ResultBatch)
    requires where.Some? ==> IsPredicate(where.value, schema)
    requires Projectable(schema, names)
  {
    DecodeBatch(batch) == Ok(ZpRows(p, where, schema, names, rows, |rows|))
  }

  /** Every batch decodes to the filtered and projected rows of its chunk. */
  ghost predicate ChunksDecoded(p: OddPrime, where: Option<Expr>, schema: TableSchema, names: seq<string>,
                                rowss: seq<seq<Row>>, batches: seq<ResultBatch>)
    requires where.Some? ==> IsPredicate(where.value, schema)
    requires Projectable(schema, names)
  {
    && |batches| == |rowss|
    && forall k :: 0 <= k < |rowss| ==> ChunkDecoded(p, where, schema, names, rowss[k], batches[k])
  }

  /** Then all batches decode to the filtered and projected rows of the whole. */
  lemma BatchesDecode(p: OddPrime, where: Option<Expr>, schema: TableSchema, names: seq<string>, rowss: seq<seq<Row>>,
                      batches: seq<ResultBatch>)
    requires where.Some? ==> IsPredicate(where.value, schema)
    requires Projectable(schema, names) && ChunksDecoded(p, where, schema, names, rowss, batches)
    ensures
      var rows := Flatten(rowss, |rowss|);
      DecodeFirst(batches, |batches|) == Ok(ZpRows(p, where, schema, names, rows, |rows|))
  {
    var parts := seq(|rowss|, k requires 0 <= k < |rowss| => ZpRows(p, where, schema, names, rowss[k], |rowss[k]|));
    forall j | 0 <= j < |batches|
      ensures DecodeBatch(batches[j]) == Ok(parts[j])
    {
      assert ChunkDecoded(p, where, schema, names, rowss[j], batches[j]);
    }
    DecodeAll(batches, parts, |batches|);
    ZpRowsFlatten(p, where, schema, names, rowss, parts, |rowss|);
  }

  function Singles(rows: seq<Row>): seq<seq<Row>> { seq(|rows|, k requires 0 <= k < |rows| => [rows[k]]) }

  lemma FlattenedSingles(rows: seq<Row>)
    ensures Flatten(Singles(rows), |Singles(rows)|) == rows
  {
    FlattenSingles(Singles(rows), rows, |rows|);
    assert rows[..|rows|] == rows;
  }

  /** The same for batches of one row each. */
  lemma SinglesDecode(p: OddPrime, where: Option<Expr>, schema: TableSchema, names: seq<string>, rows: seq<Row>,
                      batches: seq<ResultBatch>)
    requires where.Some? ==> IsPredicate(where.value, schema)
    requires Projectable(schema, names) && ChunksDecoded(p, where, schema, names, Singles(rows), batches)
    ensures DecodeFirst(batches, |batches|) == Ok(ZpRows(p, where, schema, names, rows, |rows|))
  {
    BatchesDecode(p, where, schema, names, Singles(rows), batches);
    FlattenedSingles(rows);
  }

  // ---- The scan carries what predicate and projection need ----

  lemma {:induction false} PhysicalListed(schema: TableSchema, names: seq<string>, k: nat, j: nat,
                                          column: PhysicalColumn)
    requires AllKnown(schema, names) && j < k <= |names|
    requires column in PhysicalOf(schema.Column(names[j]))
    ensures column in PhysicalFirst(schema, names, k)
  {
    if j < k - 1 {
      PhysicalListed(schema, names, k - 1, j, column);
    }
  }

  /** A scanned name keeps all its physical columns through the restriction. */
  lemma RestrictKeeps(p: OddPrime, schema: TableSchema, scan: seq<string>, chunk: StoredChunk, rows: seq<Row>,
                      name: string)
    requires AllKnown(schema, scan) && name in scan && Stores(p, schema, chunk, rows)
    ensures ColumnSlots(p, Restrict(PhysicalList(schema, scan), chunk.columns), rows, schema.Column(name))
  {
    var j :| 0 <= j < |scan| && scan[j] == name;
    var c := schema.Column(name);
    assert ColumnSlots(p, chunk.columns, rows, c);
    if c.kind == STRING {
      forall k | 0 <= k < c.maxLength
        ensures CharSlots(p, Restrict(PhysicalList(schema, scan), chunk.columns), rows, c.name, k)
      {
        assert PhysicalOf(c)[k] == CharAt(c.name, k);
        PhysicalListed(schema, scan, |scan|, j, CharAt(c.name, k));
        assert CharSlots(p, chunk.columns, rows, c.name, k);
      }
    } else {
      assert PhysicalOf(c)[0] == Plain(c.name);
      PhysicalListed(schema, scan, |scan|, j, Plain(c.name));
    }
  }

  lemma BareOfUnqualified(name: string)
    requires !Qualified(name)
    ensures BareName(name) == name
  {
  }

  lemma {:induction false} ScanHoldsRow(p: OddPrime, schema: TableSchema, scan: seq<string>, chunk: StoredChunk,
                                        rows: seq<Row>, e: Expr, i: nat)
    requires AllKnown(schema, scan) && Stores(p, schema, chunk, rows) && i < |rows|
    requires TypedPredicate(e, schema) && Covers(scan, e)
    ensures IsPredicate(e, schema)
    ensures RowHeld(p, e, schema, Restrict(PhysicalList(schema, scan), chunk.columns), |rows|, i, rows[i])
  {
    TypedIsPredicate(e, schema);
    match e
    case Compare(op, l, r) =>
      if IsStringComparison(l, r) {
        RestrictKeeps(p, schema, scan, chunk, rows, StringColumn(l, r));
        StringHeldFromSlots(p, Restrict(PhysicalList(schema, scan), chunk.columns), rows,
                            schema.Column(StringColumn(l, r)), i);
      } else {
        if l.ColumnRef? {
          RestrictKeeps(p, schema, scan, chunk, rows, l.name);
        }
        if r.ColumnRef? {
          RestrictKeeps(p, schema, scan, chunk, rows, r.name);
        }
      }
    case And(l, r) =>
      ScanHoldsRow(p, schema, scan, chunk, rows, l, i);
      ScanHoldsRow(p, schema, scan, chunk, rows, r, i);
    case Or(l, r) =>
      ScanHoldsRow(p, schema, scan, chunk, rows, l, i);
      ScanHoldsRow(p, schema, scan, chunk, rows, r, i);
    case Not(l) =>
      ScanHoldsRow(p, schema, scan, chunk, rows, l, i);
  }

  lemma StringHeldFromSlots(p: OddPrime, columns: Columns, rows: seq<Row>, c: ColumnSchema, i: nat)
    requires c.kind == STRING && ColumnSlots(p, columns, rows, c) && i < |rows|
    ensures StringHeld(p, columns, |rows|, i, c.name, c.maxLength, rows[i])
  {
    forall k | 0 <= k < c.maxLength
      ensures CharAt(c.name, k) in columns && |rows| <= |columns[CharAt(c.name, k)].slots|
      ensures columns[CharAt(c.name, k)].slots[i] == PaddedCode(StringAt(rows[i], c.name), k) % p
    {
      assert CharSlots(p, columns, rows, c.name, k);
    }
  }
}
