// Executing a package over one encrypted table, chunk by chunk.

module Execution {
  import opened Common
  import opened Catalog
  import opened PrimeField
  import opened Circuit
  import opened Package
  import opened Rebuild

  /** A chunk of a stored table: one ciphertext per physical column. */
  datatype StoredChunk = StoredChunk(rowCount: nat, columns: Columns)

  type Storage = map<string, seq<StoredChunk>>

  datatype EncryptedColumn = EncryptedColumn(columnName: string, logicalType: string, stringPosition: nat,
                                             ciphertext: Ciphertext)

  datatype ResultBatch = ResultBatch(batchId: uint32, rowCount: nat, columns: seq<EncryptedColumn>,
                                     mask: Option<Ciphertext>)

  // ---- Logical to physical columns ----

  /** How many physical columns a logical one has, and the k-th of them. */
  function PhysicalWidth(c: ColumnSchema): nat { if c.kind == STRING then c.maxLength else 1 }

  function PhysicalAt(c: ColumnSchema, k: nat): PhysicalColumn {
    if c.kind == STRING then CharAt(c.name, k) else Plain(c.name)
  }

  function PhysicalOf(c: ColumnSchema): seq<PhysicalColumn> {
    seq(PhysicalWidth(c), k requires 0 <= k < PhysicalWidth(c) => PhysicalAt(c, k))
  }

  predicate ColumnStored(c: ColumnSchema, columns: Columns) {
    forall k :: 0 <= k < PhysicalWidth(c) ==> PhysicalAt(c, k) in columns
  }

  predicate AllKnown(schema: TableSchema, names: seq<string>) {
    forall k :: 0 <= k < |names| ==> schema.HasColumn(names[k])
  }

  /** The physical columns of the first k names. */
  function PhysicalFirst(schema: TableSchema, names: seq<string>, k: nat): seq<PhysicalColumn>
    requires AllKnown(schema, names) && k <= |names|
  {
    if k == 0 then [] else PhysicalFirst(schema, names, k - 1) + PhysicalOf(schema.Column(names[k - 1]))
  }

  function PhysicalList(schema: TableSchema, names: seq<string>): seq<PhysicalColumn>
    requires AllKnown(schema, names)
  {
    PhysicalFirst(schema, names, |names|)
  }

  predicate AllStored(physical: seq<PhysicalColumn>, columns: Columns) {
    forall k :: 0 <= k < |physical| ==> physical[k] in columns
  }

  /** What the scan hands on: only the listed columns. */
  function Restrict(physical: seq<PhysicalColumn>, columns: Columns): Columns {
    map c | c in columns && c in physical :: columns[c]
  }

  /** Handing on fewer columns never changes what a filter computes. */
  lemma RestrictionHarmless(p: OddPrime, c: Circuit, physical: seq<PhysicalColumn>, columns: Columns, n: nat, i: nat)
    requires Evaluable(c, Restrict(physical, columns), n) && i < n
    ensures Evaluable(c, columns, n)
    ensures SlotValue(p, c, Restrict(physical, columns), n, i) == SlotValue(p, c, columns, n, i)
  {
    EvaluateMore(p, c, Restrict(physical, columns), columns, n, i);
  }

  function Reported(name: string, c: ColumnSchema, k: nat, ct: Ciphertext): EncryptedColumn {
    EncryptedColumn(name, if c.kind == STRING then "STRING" else "INT64", k, ct)
  }

  function ColumnResults(c: ColumnSchema, columns: Columns): seq<EncryptedColumn>
    requires ColumnStored(c, columns)
  {
    seq(PhysicalWidth(c), k requires 0 <= k < PhysicalWidth(c) => Reported(c.name, c, k, columns[PhysicalAt(c, k)]))
  }

  predicate AllProjectable(schema: TableSchema, names: seq<string>, columns: Columns)
    requires AllKnown(schema, names)
  {
    forall k :: 0 <= k < |names| ==> ColumnStored(schema.Column(names[k]), columns)
  }

  function ProjectFirst(schema: TableSchema, names: seq<string>, columns: Columns, k: nat): seq<EncryptedColumn>
    requires AllKnown(schema, names) && AllProjectable(schema, names, columns) && k <= |names|
  {
    if k == 0 then []
    else ProjectFirst(schema, names, columns, k - 1) + ColumnResults(schema.Column(names[k - 1]), columns)
  }

  function ProjectColumns(schema: TableSchema, names: seq<string>, columns: Columns): seq<EncryptedColumn>
    requires AllKnown(schema, names) && AllProjectable(schema, names, columns)
  {
    ProjectFirst(schema, names, columns, |names|)
  }

  // ---- One batch and the whole scan ----

  predicate Executable(schema: TableSchema, pkg: QueryPackage, filter: Option<Circuit>, chunk: StoredChunk) {
    && AllKnown(schema, pkg.scanColumns) && AllKnown(schema, pkg.projectColumns)
    && AllStored(PhysicalList(schema, pkg.scanColumns), chunk.columns)
    && var scanned := Restrict(PhysicalList(schema, pkg.scanColumns), chunk.columns);
    && AllProjectable(schema, pkg.projectColumns, scanned)
    && (filter.Some? ==> Evaluable(filter.value, scanned, chunk.rowCount))
  }

  function BatchResult(p: OddPrime, schema: TableSchema, pkg: QueryPackage, filter: Option<Circuit>,
                       chunk: StoredChunk, id: nat): ResultBatch
    requires Executable(schema, pkg, filter, chunk)
  {
    var scanned := Restrict(PhysicalList(schema, pkg.scanColumns), chunk.columns);
    ResultBatch(ToU32(id), chunk.rowCount, ProjectColumns(schema, pkg.projectColumns, scanned),
      match filter
      case None => None
      case Some(c) => Some(Evaluate(p, c, scanned, chunk.rowCount).value))
  }

  /** The filter of a package: none, or the rebuilt root. */
  function FilterOf(pkg: QueryPackage, stack: nat): Result<Option<Circuit>> {
    if pkg.predicateNodes == [] then Ok(None)
    else
      match RebuildNode(pkg, ToU32(|pkg.predicateNodes| - 1), stack)
      case Ok(c) => Ok(Some(c))
      case Err(error) => Err(error)
  }

  // ---- The executor ----

  method PhysicalColumns(schema: TableSchema, names: seq<string>) returns (r: Result<seq<PhysicalColumn>>)
    ensures r.Ok? <==> AllKnown(schema, names)
    ensures r.Ok? ==> r.value == PhysicalList(schema, names)
  {
    var physical: seq<PhysicalColumn> := [];
    for k := 0 to |names|
      invariant forall j :: 0 <= j < k ==> schema.HasColumn(names[j])
      invariant AllKnown(schema, names) ==> physical == PhysicalFirst(schema, names, k)
    {
      if !schema.HasColumn(names[k]) {
        return Err(ColumnNotFound);
      }
      var added := ExpandColumn(schema.Column(names[k]));
      physical := physical + added;
    }
    r := Ok(physical);
  }

  method ExpandColumn(c: ColumnSchema) returns (physical: seq<PhysicalColumn>)
    ensures physical == PhysicalOf(c)
  {
    physical := [];
    for position := 0 to PhysicalWidth(c)
      invariant physical == PhysicalOf(c)[..position]
    {
      physical := physical + [PhysicalAt(c, position)];
    }
  }

  method SerializeColumn(c: ColumnSchema, columns: Columns) returns (r: Result<seq<EncryptedColumn>>)
    ensures r.Ok? <==> ColumnStored(c, columns)
    ensures r.Ok? ==> r.value == ColumnResults(c, columns)
  {
    var results: seq<EncryptedColumn> := [];
    for position := 0 to PhysicalWidth(c)
      invariant |results| == position
      invariant forall k :: 0 <= k < position ==>
        PhysicalAt(c, k) in columns && results[k] == Reported(c.name, c, k, columns[PhysicalAt(c, k)])
    {
      if PhysicalAt(c, position) !in columns {
        return Err(MissingColumn);
      }
      results := results + [Reported(c.name, c, position, columns[PhysicalAt(c, position)])];
    }
    r := Ok(results);
  }

  method SerializeProjection(schema: TableSchema, names: seq<string>, columns: Columns)
    returns (r: Result<seq<EncryptedColumn>>)
    requires AllKnown(schema, names)
    ensures r.Ok? <==> AllProjectable(schema, names, columns)
    ensures r.Ok? ==> r.value == ProjectColumns(schema, names, columns)
  {
    var results: seq<EncryptedColumn> := [];
    for k := 0 to |names|
      invariant forall j :: 0 <= j < k ==> ColumnStored(schema.Column(names[j]), columns)
      invariant AllProjectable(schema, names, columns) ==> results == ProjectFirst(schema, names, columns, k)
    {
      var column := SerializeColumn(schema.Column(names[k]), columns);
      if column.Err? {
        return Err(column.error);
      }
      results := results + column.value;
    }
    r := Ok(results);
  }

  method BuildFilter(pkg: QueryPackage, stack: nat) returns (r: Result<Option<Circuit>>)
    ensures r == FilterOf(pkg, stack)
  {
    if pkg.predicateNodes == [] {
      return Ok(None);
    }
    var c :- BuildExpression(pkg, ToU32(|pkg.predicateNodes| - 1), stack);
    r := Ok(Some(c));
  }

  predicate AllExecutable(schema: TableSchema, pkg: QueryPackage, filter: Option<Circuit>, chunks: seq<StoredChunk>) {
    forall k :: 0 <= k < |chunks| ==> Executable(schema, pkg, filter, chunks[k])
  }

  predicate IsBatch(p: OddPrime, schema: TableSchema, pkg: QueryPackage, filter: Option<Circuit>, chunk: StoredChunk,
                    id: nat, batch: ResultBatch) {
    Executable(schema, pkg, filter, chunk) && batch == BatchResult(p, schema, pkg, filter, chunk, id)
  }

  /** One result batch per stored chunk, numbered in order. */
  predicate AreBatches(p: OddPrime, schema: TableSchema, pkg: QueryPackage, filter: Option<Circuit>,
                       chunks: seq<StoredChunk>, batches: seq<ResultBatch>) {
    && |batches| == |chunks|
    && forall k :: 0 <= k < |chunks| ==> IsBatch(p, schema, pkg, filter, chunks[k], k, batches[k])
  }

  // ---- What success needs of the stored chunks ----

  /** Every stored column of a schema column: one a character position of a string. */
  predicate HoldsColumn(c: ColumnSchema, chunk: StoredChunk) {
    match c.kind
    case STRING => forall k :: 0 <= k < c.maxLength ==> CharAt(c.name, k) in chunk.columns
    case _ => Plain(c.name) in chunk.columns
  }

  predicate HoldsNames(schema: TableSchema, names: seq<string>, chunk: StoredChunk) {
    forall k :: 0 <= k < |names| ==> schema.HasColumn(names[k]) && HoldsColumn(schema.Column(names[k]), chunk)
  }

  lemma {:induction false} ListedStored(schema: TableSchema, names: seq<string>, k: nat, j: nat, columns: Columns)
    requires AllKnown(schema, names) && j < k <= |names| && AllStored(PhysicalFirst(schema, names, k), columns)
    ensures ColumnStored(schema.Column(names[j]), columns)
  {
    var first, last := PhysicalFirst(schema, names, k - 1), PhysicalOf(schema.Column(names[k - 1]));
    assert forall i :: 0 <= i < |first| ==> (first + last)[i] == first[i];
    if j < k - 1 {
      ListedStored(schema, names, k - 1, j, columns);
    } else {
      forall i | 0 <= i < |last|
        ensures last[i] in columns
      {
        assert (first + last)[|first| + i] == last[i];
      }
      assert forall i :: 0 <= i < |last| ==> last[i] == PhysicalAt(schema.Column(names[j]), i);
    }
  }

  /** A scan needs every stored column of every listed name. */
  lemma ScanNeeds(schema: TableSchema, pkg: QueryPackage, filter: Option<Circuit>, chunk: StoredChunk)
    requires Executable(schema, pkg, filter, chunk)
    ensures HoldsNames(schema, pkg.scanColumns, chunk)
  {
    forall k | 0 <= k < |pkg.scanColumns|
      ensures HoldsColumn(schema.Column(pkg.scanColumns[k]), chunk)
    {
      var c := schema.Column(pkg.scanColumns[k]);
      ListedStored(schema, pkg.scanColumns, |pkg.scanColumns|, k, chunk.columns);
      assert forall i :: 0 <= i < PhysicalWidth(c) ==> PhysicalAt(c, i) in chunk.columns;
      if c.kind == STRING {
        assert forall i :: 0 <= i < c.maxLength ==> PhysicalAt(c, i) == CharAt(c.name, i);
      } else {
        assert PhysicalAt(c, 0) == Plain(c.name);
      }
    }
  }

  // ---- What a batch reports ----

  /** The one stored column of an integer, or those of the character positions of a
      string, in order, under a name. */
  predicate ReportsColumn(name: string, c: ColumnSchema, chunk: StoredChunk, part: seq<EncryptedColumn>) {
    match c.kind
    case STRING =>
      && |part| == c.maxLength
      && forall q :: 0 <= q < c.maxLength ==>
           && CharAt(c.name, q) in chunk.columns
           && part[q] == EncryptedColumn(name, "STRING", q, chunk.columns[CharAt(c.name, q)])
    case _ =>
      Plain(c.name) in chunk.columns && part == [EncryptedColumn(name, "INT64", 0, chunk.columns[Plain(c.name)])]
  }

  /** The stored columns of the names, one name after the other, and no more. */
  ghost predicate ReportsNames(schema: TableSchema, names: seq<string>, chunk: StoredChunk,
                               columns: seq<EncryptedColumn>)
  {
    AllKnown(schema, names) && exists parts :: PartsReport(schema, names, chunk, parts, columns)
  }

  ghost predicate PartsReport(schema: TableSchema, names: seq<string>, chunk: StoredChunk,
                              parts: seq<seq<EncryptedColumn>>, columns: seq<EncryptedColumn>)
    requires AllKnown(schema, names)
  {
    && |parts| == |names| && columns == Flatten(parts, |parts|)
    && forall j :: 0 <= j < |names| ==> ReportsColumn(names[j], schema.Column(names[j]), chunk, parts[j])
  }

  lemma ColumnReported(c: ColumnSchema, chunk: StoredChunk, scanned: Columns)
    requires ColumnStored(c, scanned) && Includes(scanned, chunk.columns)
    ensures ReportsColumn(c.name, c, chunk, ColumnResults(c, scanned))
  {
    forall q | 0 <= q < PhysicalWidth(c)
      ensures PhysicalAt(c, q) in chunk.columns
      ensures ColumnResults(c, scanned)[q] == Reported(c.name, c, q, chunk.columns[PhysicalAt(c, q)])
    {
      assert PhysicalAt(c, q) in scanned;
    }
    if c.kind == STRING {
      assert forall q :: 0 <= q < c.maxLength ==> PhysicalAt(c, q) == CharAt(c.name, q);
    } else {
      assert PhysicalAt(c, 0) == Plain(c.name);
    }
  }

  lemma {:induction false} ProjectionParts(schema: TableSchema, names: seq<string>, scanned: Columns,
                                           parts: seq<seq<EncryptedColumn>>, k: nat)
    requires AllKnown(schema, names) && AllProjectable(schema, names, scanned) && k <= |names| == |parts|
    requires forall j :: 0 <= j < |names| ==> parts[j] == ColumnResults(schema.Column(names[j]), scanned)
    ensures ProjectFirst(schema, names, scanned, k) == Flatten(parts, k)
  {
    if k > 0 {
      ProjectionParts(schema, names, scanned, parts, k - 1);
    }
  }

  lemma ProjectionReports(schema: TableSchema, names: seq<string>, chunk: StoredChunk, scanned: Columns)
    requires AllKnown(schema, names) && AllProjectable(schema, names, scanned) && Includes(scanned, chunk.columns)
    ensures ReportsNames(schema, names, chunk, ProjectColumns(schema, names, scanned))
  {
    var parts := seq(|names|, j requires 0 <= j < |names| && schema.HasColumn(names[j])
                                         && ColumnStored(schema.Column(names[j]), scanned) =>
                                ColumnResults(schema.Column(names[j]), scanned));
    ProjectionParts(schema, names, scanned, parts, |names|);
    forall j | 0 <= j < |names|
      ensures ReportsColumn(names[j], schema.Column(names[j]), chunk, parts[j])
    {
      ColumnReported(schema.Column(names[j]), chunk, scanned);
    }
    assert PartsReport(schema, names, chunk, parts, ProjectColumns(schema, names, scanned));
  }

  /** Column of a listed name. */
  predicate Listed(names: seq<string>, x: PhysicalColumn) { (x.Plain? || x.CharAt?) && x.name in names }

  lemma {:induction false} ListHolds(schema: TableSchema, names: seq<string>, k: nat, x: PhysicalColumn)
    requires AllKnown(schema, names) && k <= |names| && x in PhysicalFirst(schema, names, k)
    ensures Listed(names, x)
  {
    if x in PhysicalFirst(schema, names, k - 1) {
      ListHolds(schema, names, k - 1, x);
    } else {
      assert x in PhysicalOf(schema.Column(names[k - 1]));
    }
  }

  lemma {:induction false} ReadsFound(c: Circuit, columns: Columns, n: nat, x: PhysicalColumn)
    requires Evaluable(c, columns, n) && x in ColumnsRead(c)
    ensures x in columns
  {
    if c.Negation? || (!c.Column? && !c.Literal? && x in ColumnsRead(c.left)) {
      ReadsFound(c.left, columns, n, x);
    } else if !c.Column? && !c.Literal? {
      ReadsFound(c.right, columns, n, x);
    }
  }

  /** The filter and the projection read scanned columns only. */
  predicate ReadsScanned(schema: TableSchema, pkg: QueryPackage, filter: Option<Circuit>) {
    && (filter.Some? ==> forall x :: x in ColumnsRead(filter.value) ==> Listed(pkg.scanColumns, x))
    && forall k :: 0 <= k < |pkg.projectColumns| ==>
         && schema.HasColumn(pkg.projectColumns[k])
         && var c := schema.Column(pkg.projectColumns[k]);
         (c.kind == STRING && c.maxLength == 0) || pkg.projectColumns[k] in pkg.scanColumns
  }

  lemma ScanCovers(schema: TableSchema, pkg: QueryPackage, filter: Option<Circuit>, chunk: StoredChunk)
    requires Executable(schema, pkg, filter, chunk)
    ensures ReadsScanned(schema, pkg, filter)
  {
    var physical := PhysicalList(schema, pkg.scanColumns);
    var scanned := Restrict(physical, chunk.columns);
    if filter.Some? {
      forall x | x in ColumnsRead(filter.value)
        ensures Listed(pkg.scanColumns, x)
      {
        ReadsFound(filter.value, scanned, chunk.rowCount, x);
        ListHolds(schema, pkg.scanColumns, |pkg.scanColumns|, x);
      }
    }
    forall k | 0 <= k < |pkg.projectColumns| && PhysicalWidth(schema.Column(pkg.projectColumns[k])) > 0
      ensures pkg.projectColumns[k] in pkg.scanColumns
    {
      var x := PhysicalAt(schema.Column(pkg.projectColumns[k]), 0);
      assert ColumnStored(schema.Column(pkg.projectColumns[k]), scanned) && x in scanned;
      ListHolds(schema, pkg.scanColumns, |pkg.scanColumns|, x);
    }
  }

  /** A batch of a chunk, as far as it can be seen without decrypting it. */
  predicate NumberedBatch(chunk: StoredChunk, id: nat, masked: bool, batch: ResultBatch) {
    batch.batchId == ToU32(id) && batch.rowCount == chunk.rowCount && (batch.mask.Some? <==> masked)
  }

  /** The chunk holds the scanned columns, which are all that the query reads, and the
      batch reports those of the projected names. */
  ghost predicate FromChunk(schema: TableSchema, pkg: QueryPackage, filter: Option<Circuit>, chunk: StoredChunk,
                            batch: ResultBatch)
  {
    && HoldsNames(schema, pkg.scanColumns, chunk) && ReadsScanned(schema, pkg, filter)
    && ReportsNames(schema, pkg.projectColumns, chunk, batch.columns)
  }

  lemma BatchFromChunk(p: OddPrime, schema: TableSchema, pkg: QueryPackage, filter: Option<Circuit>,
                       chunk: StoredChunk, id: nat)
    requires Executable(schema, pkg, filter, chunk)
    ensures FromChunk(schema, pkg, filter, chunk, BatchResult(p, schema, pkg, filter, chunk, id))
  {
    var scanned := Restrict(PhysicalList(schema, pkg.scanColumns), chunk.columns);
    ScanNeeds(schema, pkg, filter, chunk);
    ScanCovers(schema, pkg, filter, chunk);
    ProjectionReports(schema, pkg.projectColumns, chunk, scanned);
  }

  lemma TableNeeds(p: OddPrime, schema: TableSchema, pkg: QueryPackage, filter: Option<Circuit>,
                   chunks: seq<StoredChunk>, batches: seq<ResultBatch>)
    requires AreBatches(p, schema, pkg, filter, chunks, batches)
    ensures forall k :: 0 <= k < |chunks| ==>
      FromChunk(schema, pkg, filter, chunks[k], batches[k]) && NumberedBatch(chunks[k], k, filter.Some?, batches[k])
  {
    forall k | 0 <= k < |chunks|
      ensures FromChunk(schema, pkg, filter, chunks[k], batches[k])
      ensures NumberedBatch(chunks[k], k, filter.Some?, batches[k])
    {
      assert IsBatch(p, schema, pkg, filter, chunks[k], k, batches[k]);
      BatchFromChunk(p, schema, pkg, filter, chunks[k], k);
    }
  }

  /** Scan, filter, project. */
  method ExecuteTable(p: OddPrime, pkg: QueryPackage, tables: TableMap, storage: Storage, stack: nat)
    returns (r: Result<seq<ResultBatch>>)
    requires pkg.tableName in tables && pkg.tableName in storage
    ensures r.Ok? <==>
      && AllKnown(tables[pkg.tableName], pkg.scanColumns) && AllKnown(tables[pkg.tableName], pkg.projectColumns)
      && FilterOf(pkg, stack).Ok?
      && AllExecutable(tables[pkg.tableName], pkg, FilterOf(pkg, stack).value, storage[pkg.tableName])
    ensures r.Ok? ==>
      AreBatches(p, tables[pkg.tableName], pkg, FilterOf(pkg, stack).value, storage[pkg.tableName], r.value)
    ensures r.Ok? ==>
      var chunks := storage[pkg.tableName];
      && |r.value| == |chunks|
      && forall k :: 0 <= k < |chunks| ==>
           && FromChunk(tables[pkg.tableName], pkg, FilterOf(pkg, stack).value, chunks[k], r.value[k])
           && NumberedBatch(chunks[k], k, pkg.predicateNodes != [], r.value[k])
  {
    var schema := tables[pkg.tableName];
    var scan :- PhysicalColumns(schema, pkg.scanColumns);
    var filter :- BuildFilter(pkg, stack);
    var _ :- PhysicalColumns(schema, pkg.projectColumns);
    r := ExecuteChunks(p, schema, pkg, filter, storage[pkg.tableName], scan);
    if r.Ok? {
      TableNeeds(p, schema, pkg, filter, storage[pkg.tableName], r.value);
    }
  }

  method ExecuteChunks(p: OddPrime, schema: TableSchema, pkg: QueryPackage, filter: Option<Circuit>,
                       chunks: seq<StoredChunk>, scan: seq<PhysicalColumn>) returns (r: Result<seq<ResultBatch>>)
    requires AllKnown(schema, pkg.scanColumns) && AllKnown(schema, pkg.projectColumns)
    requires scan == PhysicalList(schema, pkg.scanColumns)
    ensures r.Ok? <==> AllExecutable(schema, pkg, filter, chunks)
    ensures r.Ok? ==> AreBatches(p, schema, pkg, filter, chunks, r.value)
  {
    var results: seq<ResultBatch> := [];
    for k := 0 to |chunks|
      invariant |results| == k
      invariant forall j :: 0 <= j < k ==> IsBatch(p, schema, pkg, filter, chunks[j], j, results[j])
    {
      var batch :- ExecuteChunk(p, schema, pkg, filter, chunks[k], k, scan);
      assert IsBatch(p, schema, pkg, filter, chunks[k], k, batch);
      results := results + [batch];
    }
    BatchesExecutable(p, schema, pkg, filter, chunks, results);
    r := Ok(results);
  }

  lemma BatchesExecutable(p: OddPrime, schema: TableSchema, pkg: QueryPackage, filter: Option<Circuit>,
                          chunks: seq<StoredChunk>, batches: seq<ResultBatch>)
    requires AreBatches(p, schema, pkg, filter, chunks, batches)
    ensures AllExecutable(schema, pkg, filter, chunks)
  {
    forall k | 0 <= k < |chunks|
      ensures Executable(schema, pkg, filter, chunks[k])
    {
      assert IsBatch(p, schema, pkg, filter, chunks[k], k, batches[k]);
    }
  }

  method ExecuteChunk(p: OddPrime, schema: TableSchema, pkg: QueryPackage, filter: Option<Circuit>, chunk: StoredChunk,
                      id: nat, scan: seq<PhysicalColumn>) returns (r: Result<ResultBatch>)
    requires AllKnown(schema, pkg.scanColumns) && AllKnown(schema, pkg.projectColumns)
    requires scan == PhysicalList(schema, pkg.scanColumns)
    ensures r.Ok? <==> Executable(schema, pkg, filter, chunk)
    ensures r.Ok? ==> r.value == BatchResult(p, schema, pkg, filter, chunk, id)
  {
    if exists k :: 0 <= k < |scan| && scan[k] !in chunk.columns {
      return Err(MissingColumn);
    }
    var scanned := Restrict(scan, chunk.columns);
    var mask: Option<Ciphertext> := None;
    if filter.Some? {
      var m :- Evaluate(p, filter.value, scanned, chunk.rowCount);
      mask := Some(m);
    }
    var columns :- SerializeProjection(schema, pkg.projectColumns, scanned);
    r := Ok(ResultBatch(ToU32(id), chunk.rowCount, columns, mask));
  }
}
