// Executing a two-table equality join: an encrypted nested loop over chunks of
// one row each, with the WHERE mask of the left table computed once per left row
// when no joined column is referenced.

module JoinExecution {
  import opened Common
  import opened Catalog
  import opened PrimeField
  import opened Masks
  import opened Circuit
  import opened Package
  import opened Execution

  function Key(alias: string, name: string): string { alias + "." + name }

  predicate StartsWith(s: string, prefix: string) { prefix <= s }

  // ---- The batch of a left and a right row ----

  function AliasedAt(alias: string, c: ColumnSchema, k: nat): PhysicalColumn {
    if c.kind == STRING then AliasedCharAt(alias, c.name, k) else Plain(Key(alias, c.name))
  }

  /** The first k physical columns of a schema column under its alias; character
      positions get a name of their own. */
  function AddAliased(base: Columns, c: ColumnSchema, alias: string, chunk: StoredChunk, k: nat): Columns
    requires ColumnStored(c, chunk.columns) && k <= PhysicalWidth(c)
  {
    if k == 0 then base
    else AddAliased(base, c, alias, chunk, k - 1)[AliasedAt(alias, c, k - 1) := chunk.columns[PhysicalAt(c, k - 1)]]
  }

  predicate FirstAliasable(columns: seq<ColumnSchema>, chunk: StoredChunk, k: nat)
    requires k <= |columns|
  {
    forall j :: 0 <= j < k ==> ColumnStored(columns[j], chunk.columns)
  }

  /** The first k schema columns of a table under an alias, over what is there. */
  function WithTable(base: Columns, columns: seq<ColumnSchema>, alias: string, chunk: StoredChunk, k: nat): Columns
    requires k <= |columns| && FirstAliasable(columns, chunk, k)
  {
    if k == 0 then base else
      AddAliased(WithTable(base, columns, alias, chunk, k - 1), columns[k - 1], alias, chunk,
                 PhysicalWidth(columns[k - 1]))
  }

  predicate AllAliasable(columns: seq<ColumnSchema>, chunk: StoredChunk) {
    FirstAliasable(columns, chunk, |columns|)
  }

  function LeftColumns(pkg: QueryPackage, tables: TableMap, left: StoredChunk): Columns
    requires pkg.tableName in tables && AllAliasable(tables[pkg.tableName].columns, left)
  {
    WithTable(map[], tables[pkg.tableName].columns, pkg.tableAlias, left, |tables[pkg.tableName].columns|)
  }

  function PairColumns(pkg: QueryPackage, tables: TableMap, left: StoredChunk, right: StoredChunk): Columns
    requires pkg.tableName in tables && AllAliasable(tables[pkg.tableName].columns, left)
    requires pkg.joinedTableName in tables && AllAliasable(tables[pkg.joinedTableName].columns, right)
  {
    WithTable(LeftColumns(pkg, tables, left), tables[pkg.joinedTableName].columns, pkg.joinedTableAlias, right,
              |tables[pkg.joinedTableName].columns|)
  }

  // ---- Projection of a pair ----

  predicate OnLeft(pkg: QueryPackage, name: string) {
    (if Qualified(name) then AliasPart(name) else pkg.tableAlias) == pkg.tableAlias
  }

  function SideTable(pkg: QueryPackage, name: string): string {
    if OnLeft(pkg, name) then pkg.tableName else pkg.joinedTableName
  }

  predicate SideKnown(pkg: QueryPackage, tables: TableMap, name: string) {
    SideTable(pkg, name) in tables && tables[SideTable(pkg, name)].HasColumn(BareName(name))
  }

  /** The schema column a known name projects. */
  function SideColumn(pkg: QueryPackage, tables: TableMap, name: string): ColumnSchema {
    if SideKnown(pkg, tables, name) then tables[SideTable(pkg, name)].Column(BareName(name))
    else ColumnSchema("", INT64, 0)
  }

  function SideChunk(pkg: QueryPackage, name: string, left: StoredChunk, right: StoredChunk): StoredChunk {
    if OnLeft(pkg, name) then left else right
  }

  predicate SideStored(pkg: QueryPackage, tables: TableMap, name: string, left: StoredChunk, right: StoredChunk) {
    && SideKnown(pkg, tables, name)
    && ColumnStored(SideColumn(pkg, tables, name), SideChunk(pkg, name, left, right).columns)
  }

  predicate FirstProjectable(pkg: QueryPackage, tables: TableMap, left: StoredChunk, right: StoredChunk, k: nat)
    requires k <= |pkg.projectColumns|
  {
    forall j :: 0 <= j < k ==> SideStored(pkg, tables, pkg.projectColumns[j], left, right)
  }

  predicate PairProjectable(pkg: QueryPackage, tables: TableMap, left: StoredChunk, right: StoredChunk) {
    FirstProjectable(pkg, tables, left, right, |pkg.projectColumns|)
  }

  function Stored(columns: Columns, x: PhysicalColumn): Ciphertext {
    if x in columns then columns[x] else Sealed([])
  }

  /** A stored column, reported under the name the query projects. */
  function RenamedResults(name: string, c: ColumnSchema, columns: Columns): seq<EncryptedColumn> {
    seq(PhysicalWidth(c),
        k requires 0 <= k < PhysicalWidth(c) => Reported(name, c, k, Stored(columns, PhysicalAt(c, k))))
  }

  function PairProjection(pkg: QueryPackage, tables: TableMap, left: StoredChunk, right: StoredChunk, k: nat)
    : seq<EncryptedColumn>
    requires k <= |pkg.projectColumns|
  {
    if k == 0 then []
    else
      var name := pkg.projectColumns[k - 1];
      PairProjection(pkg, tables, left, right, k - 1) +
        RenamedResults(name, SideColumn(pkg, tables, name), SideChunk(pkg, name, left, right).columns)
  }

  // ---- Masks ----

  /** evalMult, slot by slot. */
  function Multiply(p: OddPrime, a: Ciphertext, b: Ciphertext): Ciphertext
    requires |a.slots| == |b.slots|
  {
    Sealed(seq(|a.slots|, i requires 0 <= i < |a.slots| => AndMask(p, a.slots[i], b.slots[i])))
  }

  function KeyTest(pkg: QueryPackage): Circuit {
    EqualTo(Column(Plain(pkg.joinLeftColumn)), Column(Plain(pkg.joinRightColumn)))
  }

  /** Whether some column node names the joined table. */
  predicate UsesJoined(pkg: QueryPackage) {
    exists i :: 0 <= i < |pkg.predicateNodes| && JoinedNode(pkg, pkg.predicateNodes[i])
  }

  predicate JoinedNode(pkg: QueryPackage, node: PredNode) {
    node.kind == ColumnNode && StartsWith(node.columnName, pkg.joinedTableAlias + ".")
  }

  // ---- What the nested loop computes ----

  predicate LeftFine(pkg: QueryPackage, tables: TableMap, where: Option<Circuit>, leftKey: string, left: StoredChunk) {
    && Plain(leftKey) in left.columns && left.rowCount == 1
    && pkg.tableName in tables
    && (where.Some? && !UsesJoined(pkg) ==>
          && AllAliasable(tables[pkg.tableName].columns, left)
          && Evaluable(where.value, LeftColumns(pkg, tables, left), 1))
  }

  predicate PairFine(pkg: QueryPackage, tables: TableMap, where: Option<Circuit>, rightKey: string, left: StoredChunk,
                     right: StoredChunk) {
    && Plain(rightKey) in right.columns && right.rowCount == 1
    && pkg.tableName in tables && AllAliasable(tables[pkg.tableName].columns, left)
    && pkg.joinedTableName in tables && AllAliasable(tables[pkg.joinedTableName].columns, right)
    && Evaluable(KeyTest(pkg), PairColumns(pkg, tables, left, right), 1)
    && (where.Some? && UsesJoined(pkg) ==> Evaluable(where.value, PairColumns(pkg, tables, left, right), 1))
    && PairProjectable(pkg, tables, left, right)
  }

  function PairMask(p: OddPrime, pkg: QueryPackage, tables: TableMap, where: Option<Circuit>, left: StoredChunk,
                    right: StoredChunk): Result<Ciphertext>
    requires pkg.tableName in tables && AllAliasable(tables[pkg.tableName].columns, left)
    requires pkg.joinedTableName in tables && AllAliasable(tables[pkg.joinedTableName].columns, right)
  {
    var pair := PairColumns(pkg, tables, left, right);
    match Evaluate(p, KeyTest(pkg), pair, 1)
    case Err(error) => Err(error)
    case Ok(keys) =>
      if where.None? then Ok(keys)
      else
        match Evaluate(p, where.value, if UsesJoined(pkg) then pair else LeftColumns(pkg, tables, left), 1)
        case Err(error) => Err(error)
        case Ok(mask) => Ok(Multiply(p, keys, mask))
  }

  predicate IsPairBatch(p: OddPrime, pkg: QueryPackage, tables: TableMap, where: Option<Circuit>, rightKey: string,
                        left: StoredChunk, right: StoredChunk, id: nat, batch: ResultBatch) {
    && PairFine(pkg, tables, where, rightKey, left, right)
    && var mask := PairMask(p, pkg, tables, where, left, right);
    && mask.Ok?
    && batch == ResultBatch(ToU32(id), 1, PairProjection(pkg, tables, left, right, |pkg.projectColumns|),
                            Some(mask.value))
  }

  // ---- Left-major pairs ----

  function PairRow<A, B>(l: A, rs: seq<B>, j: nat): seq<(A, B)>
    requires j <= |rs|
  {
    if j == 0 then [] else PairRow(l, rs, j - 1) + [(l, rs[j - 1])]
  }

  /** Every left element of the first i with every right element, left-major. */
  function Pairs<A, B>(ls: seq<A>, rs: seq<B>, i: nat): seq<(A, B)>
    requires i <= |ls|
  {
    if i == 0 then [] else Pairs(ls, rs, i - 1) + PairRow(ls[i - 1], rs, |rs|)
  }

  lemma {:induction false} PairRowAt<A, B>(l: A, rs: seq<B>, j: nat, b: nat)
    requires j <= |rs|
    ensures |PairRow(l, rs, j)| == j
    ensures b < j ==> PairRow(l, rs, j)[b] == (l, rs[b])
  {
    if j > 0 {
      PairRowAt(l, rs, j - 1, b);
    }
  }

  /** Position a * |R| + b holds the pair of left a and right b. */
  lemma {:induction false} PairsAt<A, B>(ls: seq<A>, rs: seq<B>, i: nat, a: nat, b: nat)
    requires i <= |ls|
    ensures |Pairs(ls, rs, i)| == i * |rs|
    ensures a < i && b < |rs| ==> a * |rs| + b < i * |rs| && Pairs(ls, rs, i)[a * |rs| + b] == (ls[a], rs[b])
  {
    if i > 0 {
      PairsAt(ls, rs, i - 1, a, b);
      PairRowAt(ls[i - 1], rs, |rs|, b);
      assert i * |rs| == (i - 1) * |rs| + |rs|;
    }
  }

  predicate LeftsFine(pkg: QueryPackage, tables: TableMap, where: Option<Circuit>, leftKey: string,
                      lefts: seq<StoredChunk>) {
    forall i :: 0 <= i < |lefts| ==> LeftFine(pkg, tables, where, leftKey, lefts[i])
  }

  predicate PairsFine(pkg: QueryPackage, tables: TableMap, where: Option<Circuit>, rightKey: string,
                      pairs: seq<(StoredChunk, StoredChunk)>) {
    forall k :: 0 <= k < |pairs| ==> PairFine(pkg, tables, where, rightKey, pairs[k].0, pairs[k].1)
  }

  /** One batch per pair, numbered consecutively. */
  predicate ArePairBatches(p: OddPrime, pkg: QueryPackage, tables: TableMap, where: Option<Circuit>, rightKey: string,
                           pairs: seq<(StoredChunk, StoredChunk)>, batches: seq<ResultBatch>) {
    && |batches| == |pairs|
    && forall k :: 0 <= k < |pairs| ==>
         IsPairBatch(p, pkg, tables, where, rightKey, pairs[k].0, pairs[k].1, k, batches[k])
  }

  predicate JoinQualified(pkg: QueryPackage) {
    StartsWith(pkg.joinLeftColumn, pkg.tableAlias + ".") && StartsWith(pkg.joinRightColumn, pkg.joinedTableAlias + ".")
  }

  function LeftKey(pkg: QueryPackage): string
    requires JoinQualified(pkg)
  {
    pkg.joinLeftColumn[|pkg.tableAlias| + 1..]
  }

  function RightKey(pkg: QueryPackage): string
    requires JoinQualified(pkg)
  {
    pkg.joinRightColumn[|pkg.joinedTableAlias| + 1..]
  }

  // ---- The executor ----

  method AddColumn(base: Columns, c: ColumnSchema, alias: string, chunk: StoredChunk) returns (r: Result<Columns>)
    ensures r.Ok? <==> ColumnStored(c, chunk.columns)
    ensures r.Ok? ==> r.value == AddAliased(base, c, alias, chunk, PhysicalWidth(c))
  {
    var columns := base;
    for position := 0 to PhysicalWidth(c)
      invariant forall j :: 0 <= j < position ==> PhysicalAt(c, j) in chunk.columns
      invariant ColumnStored(c, chunk.columns) ==> columns == AddAliased(base, c, alias, chunk, position)
    {
      if PhysicalAt(c, position) !in chunk.columns {
        return Err(MissingColumn);
      }
      columns := columns[AliasedAt(alias, c, position) := chunk.columns[PhysicalAt(c, position)]];
    }
    r := Ok(columns);
  }

  method AddTableColumns(base: Columns, schema: TableSchema, alias: string, chunk: StoredChunk)
    returns (r: Result<Columns>)
    ensures r.Ok? <==> AllAliasable(schema.columns, chunk)
    ensures r.Ok? ==> r.value == WithTable(base, schema.columns, alias, chunk, |schema.columns|)
  {
    var columns := base;
    for k := 0 to |schema.columns|
      invariant FirstAliasable(schema.columns, chunk, k)
      invariant columns == WithTable(base, schema.columns, alias, chunk, k)
    {
      columns :- AddColumn(columns, schema.columns[k], alias, chunk);
    }
    r := Ok(columns);
  }

  method WhereUsesJoinedTable(pkg: QueryPackage) returns (uses: bool)
    ensures uses <==> UsesJoined(pkg)
    ensures uses <==> exists i ::
      && 0 <= i < |pkg.predicateNodes| && pkg.predicateNodes[i].kind == ColumnNode
      && pkg.joinedTableAlias + "." <= pkg.predicateNodes[i].columnName
  {
    for i := 0 to |pkg.predicateNodes|
      invariant forall j :: 0 <= j < i ==> !JoinedNode(pkg, pkg.predicateNodes[j])
    {
      if JoinedNode(pkg, pkg.predicateNodes[i]) {
        return true;
      }
    }
    uses := false;
  }

  method SerializeName(pkg: QueryPackage, tables: TableMap, name: string, left: StoredChunk, right: StoredChunk)
    returns (r: Result<seq<EncryptedColumn>>)
    ensures r.Ok? <==> SideStored(pkg, tables, name, left, right)
    ensures r.Ok? ==>
      r.value == RenamedResults(name, SideColumn(pkg, tables, name), SideChunk(pkg, name, left, right).columns)
  {
    if !SideKnown(pkg, tables, name) {
      return Err(ColumnNotFound);
    }
    r := SerializeSide(name, SideColumn(pkg, tables, name), SideChunk(pkg, name, left, right).columns);
  }

  method SerializePair(pkg: QueryPackage, tables: TableMap, left: StoredChunk, right: StoredChunk)
    returns (r: Result<seq<EncryptedColumn>>)
    ensures r.Ok? <==> PairProjectable(pkg, tables, left, right)
    ensures r.Ok? ==> r.value == PairProjection(pkg, tables, left, right, |pkg.projectColumns|)
  {
    r := Ok([]);
    for k := 0 to |pkg.projectColumns|
      invariant SerializedFirst(pkg, tables, left, right, k, r)
    {
      r := SerializeNext(pkg, tables, left, right, k, r.value);
      if r.Err? {
        return;
      }
    }
  }

  /** The columns of the first k projected names. */
  predicate SerializedFirst(pkg: QueryPackage, tables: TableMap, left: StoredChunk, right: StoredChunk, k: nat,
                            r: Result<seq<EncryptedColumn>>)
    requires k <= |pkg.projectColumns|
  {
    r.Ok? && FirstProjectable(pkg, tables, left, right, k) && r.value == PairProjection(pkg, tables, left, right, k)
  }

  method SerializeNext(pkg: QueryPackage, tables: TableMap, left: StoredChunk, right: StoredChunk, k: nat,
                       sofar: seq<EncryptedColumn>) returns (r: Result<seq<EncryptedColumn>>)
    requires k < |pkg.projectColumns| && SerializedFirst(pkg, tables, left, right, k, Ok(sofar))
    ensures r.Ok? <==> SideStored(pkg, tables, pkg.projectColumns[k], left, right)
    ensures r.Ok? ==> SerializedFirst(pkg, tables, left, right, k + 1, r)
  {
    var added :- SerializeName(pkg, tables, pkg.projectColumns[k], left, right);
    r := Ok(sofar + added);
  }

  method SerializeSide(name: string, c: ColumnSchema, columns: Columns) returns (r: Result<seq<EncryptedColumn>>)
    ensures r.Ok? <==> ColumnStored(c, columns)
    ensures r.Ok? ==> r.value == RenamedResults(name, c, columns)
  {
    var results: seq<EncryptedColumn> := [];
    for position := 0 to PhysicalWidth(c)
      invariant |results| == position
      invariant forall k :: 0 <= k < position ==>
        PhysicalAt(c, k) in columns && results[k] == Reported(name, c, k, columns[PhysicalAt(c, k)])
    {
      if PhysicalAt(c, position) !in columns {
        return Err(MissingColumn);
      }
      results := results + [Reported(name, c, position, columns[PhysicalAt(c, position)])];
    }
    r := Ok(results);
  }

  method ExecutePair(p: OddPrime, pkg: QueryPackage, tables: TableMap, where: Option<Circuit>, uses: bool,
                     leftMask: Option<Ciphertext>, rightKey: string, left: StoredChunk, right: StoredChunk, id: nat)
    returns (r: Result<ResultBatch>)
    requires Hoisted(p, pkg, tables, where, uses, leftMask, left)
    ensures r.Ok? <==> PairFine(pkg, tables, where, rightKey, left, right)
    ensures r.Ok? ==> IsPairBatch(p, pkg, tables, where, rightKey, left, right, id, r.value)
  {
    if Plain(rightKey) !in right.columns {
      return Err(MissingColumn);
    }
    if right.rowCount != 1 {
      return Err(JoinChunkSize);
    }
    if pkg.tableName !in tables || pkg.joinedTableName !in tables {
      return Err(TableNotFound);
    }
    var leftSide :- AddTableColumns(map[], tables[pkg.tableName], pkg.tableAlias, left);
    var pair :- AddTableColumns(leftSide, tables[pkg.joinedTableName], pkg.joinedTableAlias, right);
    var mask :- Evaluate(p, KeyTest(pkg), pair, 1);
    if uses {
      var whereMask :- Evaluate(p, where.value, pair, 1);
      mask := Multiply(p, mask, whereMask);
    } else if leftMask.Some? {
      mask := Multiply(p, mask, leftMask.value);
    }
    var columns :- SerializePair(pkg, tables, left, right);
    r := Ok(ResultBatch(ToU32(id), 1, columns, Some(mask)));
  }

  method LeftMask(p: OddPrime, pkg: QueryPackage, tables: TableMap, where: Option<Circuit>, uses: bool, leftKey: string,
                  left: StoredChunk) returns (r: Result<Option<Ciphertext>>)
    requires uses == UsesJoined(pkg) && (uses ==> where.Some?)
    ensures r.Ok? <==> LeftFine(pkg, tables, where, leftKey, left)
    ensures r.Ok? ==> Hoisted(p, pkg, tables, where, uses, r.value, left)
  {
    if Plain(leftKey) !in left.columns {
      return Err(MissingColumn);
    }
    if left.rowCount != 1 {
      return Err(JoinChunkSize);
    }
    if pkg.tableName !in tables {
      return Err(TableNotFound);
    }
    if where.None? || uses {
      return Ok(None);
    }
    var leftOnly :- AddTableColumns(map[], tables[pkg.tableName], pkg.tableAlias, left);
    var mask :- Evaluate(p, where.value, leftOnly, 1);
    r := Ok(Some(mask));
  }

  /** The hoisted mask: present exactly when WHERE leaves the joined table alone. */
  predicate Hoisted(p: OddPrime, pkg: QueryPackage, tables: TableMap, where: Option<Circuit>, uses: bool,
                    leftMask: Option<Ciphertext>, left: StoredChunk) {
    && uses == UsesJoined(pkg) && (uses ==> where.Some?)
    && (leftMask.Some? <==> where.Some? && !uses)
    && (leftMask.Some? ==>
          && pkg.tableName in tables && AllAliasable(tables[pkg.tableName].columns, left)
          && Evaluate(p, where.value, LeftColumns(pkg, tables, left), 1) == Ok(leftMask.value))
  }

  /** The batches after the first j right rows. */
  ghost predicate RowDone(p: OddPrime, pkg: QueryPackage, tables: TableMap, where: Option<Circuit>, rightKey: string,
                          left: StoredChunk, rights: seq<StoredChunk>, earlier: seq<(StoredChunk, StoredChunk)>, j: nat,
                          sofar: seq<ResultBatch>)
    requires j <= |rights|
  {
    && PairsFine(pkg, tables, where, rightKey, PairRow(left, rights, j))
    && ArePairBatches(p, pkg, tables, where, rightKey, earlier + PairRow(left, rights, j), sofar)
  }

  lemma RowDoneSnoc(p: OddPrime, pkg: QueryPackage, tables: TableMap, where: Option<Circuit>, rightKey: string,
                    left: StoredChunk, rights: seq<StoredChunk>, earlier: seq<(StoredChunk, StoredChunk)>, j: nat,
                    sofar: seq<ResultBatch>, batch: ResultBatch)
    requires j < |rights| && RowDone(p, pkg, tables, where, rightKey, left, rights, earlier, j, sofar)
    requires IsPairBatch(p, pkg, tables, where, rightKey, left, rights[j], |sofar|, batch)
    ensures RowDone(p, pkg, tables, where, rightKey, left, rights, earlier, j + 1, sofar + [batch])
  {
    var before := earlier + PairRow(left, rights, j);
    assert earlier + PairRow(left, rights, j + 1) == before + [(left, rights[j])];
    BatchesSnoc(p, pkg, tables, where, rightKey, before, sofar, left, rights[j], batch);
  }

  /** One step of the inner loop: the next pair appended to the results so far. */
  method ExecuteNext(p: OddPrime, pkg: QueryPackage, tables: TableMap, where: Option<Circuit>, uses: bool,
                     leftMask: Option<Ciphertext>, rightKey: string, left: StoredChunk, rights: seq<StoredChunk>,
                     j: nat, ghost earlier: seq<(StoredChunk, StoredChunk)>, sofar: seq<ResultBatch>)
    returns (r: Result<seq<ResultBatch>>)
    requires j < |rights| && Hoisted(p, pkg, tables, where, uses, leftMask, left)
    requires RowDone(p, pkg, tables, where, rightKey, left, rights, earlier, j, sofar)
    ensures r.Ok? <==> PairFine(pkg, tables, where, rightKey, left, rights[j])
    ensures r.Ok? ==> RowDone(p, pkg, tables, where, rightKey, left, rights, earlier, j + 1, r.value)
  {
    var batch := ExecutePair(p, pkg, tables, where, uses, leftMask, rightKey, left, rights[j], |sofar|);
    if batch.Err? {
      return Err(batch.error);
    }
    RowDoneSnoc(p, pkg, tables, where, rightKey, left, rights, earlier, j, sofar, batch.value);
    r := Ok(sofar + [batch.value]);
  }

  method ExecuteRow(p: OddPrime, pkg: QueryPackage, tables: TableMap, where: Option<Circuit>, uses: bool,
                    leftMask: Option<Ciphertext>, rightKey: string, left: StoredChunk, rights: seq<StoredChunk>,
                    ghost earlier: seq<(StoredChunk, StoredChunk)>, sofar: seq<ResultBatch>)
    returns (r: Result<seq<ResultBatch>>)
    requires Hoisted(p, pkg, tables, where, uses, leftMask, left)
    requires ArePairBatches(p, pkg, tables, where, rightKey, earlier, sofar)
    ensures r.Ok? <==> PairsFine(pkg, tables, where, rightKey, PairRow(left, rights, |rights|))
    ensures r.Ok? ==>
      ArePairBatches(p, pkg, tables, where, rightKey, earlier + PairRow(left, rights, |rights|), r.value)
  {
    assert earlier + PairRow(left, rights, 0) == earlier;
    r := Ok(sofar);
    for j := 0 to |rights|
      invariant r.Ok? && RowDone(p, pkg, tables, where, rightKey, left, rights, earlier, j, r.value)
    {
      PairRowAt(left, rights, |rights|, j);
      r := ExecuteNext(p, pkg, tables, where, uses, leftMask, rightKey, left, rights, j, earlier, r.value);
      if r.Err? {
        return;
      }
    }
  }

  lemma BatchesSnoc(p: OddPrime, pkg: QueryPackage, tables: TableMap, where: Option<Circuit>, rightKey: string,
                    pairs: seq<(StoredChunk, StoredChunk)>, batches: seq<ResultBatch>, left: StoredChunk,
                    right: StoredChunk, batch: ResultBatch)
    requires ArePairBatches(p, pkg, tables, where, rightKey, pairs, batches)
    requires IsPairBatch(p, pkg, tables, where, rightKey, left, right, |batches|, batch)
    ensures ArePairBatches(p, pkg, tables, where, rightKey, pairs + [(left, right)], batches + [batch])
  {
  }

  // ---- What success needs of the stored chunks ----

  predicate OneRowEach(chunks: seq<StoredChunk>) { forall k :: 0 <= k < |chunks| ==> chunks[k].rowCount == 1 }

  predicate HoldsTable(schema: TableSchema, chunk: StoredChunk) {
    forall k :: 0 <= k < |schema.columns| ==> HoldsColumn(schema.columns[k], chunk)
  }

  lemma AliasableHolds(schema: TableSchema, chunk: StoredChunk)
    requires AllAliasable(schema.columns, chunk)
    ensures HoldsTable(schema, chunk)
  {
    forall k | 0 <= k < |schema.columns|
      ensures HoldsColumn(schema.columns[k], chunk)
    {
      var c := schema.columns[k];
      assert ColumnStored(c, chunk.columns);
      if c.kind == STRING {
        assert forall i :: 0 <= i < c.maxLength ==> PhysicalAt(c, i) == CharAt(c.name, i);
      } else {
        assert PhysicalAt(c, 0) == Plain(c.name);
      }
    }
  }

  /** Joined chunks hold one row each and every column of their tables. */
  ghost predicate ChunksJoin(pkg: QueryPackage, tables: TableMap, lefts: seq<StoredChunk>, rights: seq<StoredChunk>) {
    && OneRowEach(lefts) && (lefts != [] ==> OneRowEach(rights))
    && (lefts != [] && rights != [] ==>
          && pkg.tableName in tables && pkg.joinedTableName in tables
          && (forall k :: 0 <= k < |lefts| ==> HoldsTable(tables[pkg.tableName], lefts[k]))
          && (forall k :: 0 <= k < |rights| ==> HoldsTable(tables[pkg.joinedTableName], rights[k])))
  }

  /** Every chunk holds the key of its table. */
  predicate ChunksHoldKeys(leftKey: string, rightKey: string, lefts: seq<StoredChunk>, rights: seq<StoredChunk>) {
    && (forall k :: 0 <= k < |lefts| ==> Plain(leftKey) in lefts[k].columns)
    && (lefts != [] ==> forall k :: 0 <= k < |rights| ==> Plain(rightKey) in rights[k].columns)
  }

  lemma PairHolds(pkg: QueryPackage, tables: TableMap, where: Option<Circuit>, rightKey: string, left: StoredChunk,
                  right: StoredChunk)
    requires PairFine(pkg, tables, where, rightKey, left, right)
    ensures right.rowCount == 1 && pkg.tableName in tables && pkg.joinedTableName in tables
    ensures HoldsTable(tables[pkg.tableName], left) && HoldsTable(tables[pkg.joinedTableName], right)
    ensures Plain(rightKey) in right.columns
  {
    AliasableHolds(tables[pkg.tableName], left);
    AliasableHolds(tables[pkg.joinedTableName], right);
  }

  lemma PairFineAt(pkg: QueryPackage, tables: TableMap, where: Option<Circuit>, rightKey: string,
                   pairs: seq<(StoredChunk, StoredChunk)>, k: nat, left: StoredChunk, right: StoredChunk)
    requires PairsFine(pkg, tables, where, rightKey, pairs) && k < |pairs| && pairs[k] == (left, right)
    ensures PairFine(pkg, tables, where, rightKey, left, right)
  {
  }

  /** A join succeeds only on such chunks: on others it stops with an error. */
  lemma JoinNeeds(pkg: QueryPackage, tables: TableMap, where: Option<Circuit>, leftKey: string, rightKey: string,
                  lefts: seq<StoredChunk>, rights: seq<StoredChunk>)
    requires LeftsFine(pkg, tables, where, leftKey, lefts)
    requires PairsFine(pkg, tables, where, rightKey, Pairs(lefts, rights, |lefts|))
    ensures ChunksJoin(pkg, tables, lefts, rights) && ChunksHoldKeys(leftKey, rightKey, lefts, rights)
  {
    forall a, b | 0 <= a < |lefts| && 0 <= b < |rights|
      ensures rights[b].rowCount == 1 && Plain(rightKey) in rights[b].columns
      ensures pkg.tableName in tables && pkg.joinedTableName in tables
      ensures HoldsTable(tables[pkg.tableName], lefts[a]) && HoldsTable(tables[pkg.joinedTableName], rights[b])
    {
      PairsAt(lefts, rights, |lefts|, a, b);
      PairFineAt(pkg, tables, where, rightKey, Pairs(lefts, rights, |lefts|), a * |rights| + b, lefts[a], rights[b]);
      PairHolds(pkg, tables, where, rightKey, lefts[a], rights[b]);
    }
    forall k | 0 <= k < |lefts|
      ensures lefts[k].rowCount == 1 && Plain(leftKey) in lefts[k].columns
    {
      assert LeftFine(pkg, tables, where, leftKey, lefts[k]);
    }
  }

  // ---- What a batch reports ----

  /** The name is a column of the main table: it has no alias, or the main one. */
  predicate OfMain(pkg: QueryPackage, name: string) { !Qualified(name) || AliasPart(name) == pkg.tableAlias }

  /** The stored columns of a name, under the name as it is projected. */
  ghost predicate NameReported(pkg: QueryPackage, tables: TableMap, left: StoredChunk, right: StoredChunk, name: string,
                               part: seq<EncryptedColumn>)
  {
    var table := if OfMain(pkg, name) then pkg.tableName else pkg.joinedTableName;
    && table in tables && tables[table].HasColumn(BareName(name))
    && ReportsColumn(name, tables[table].Column(BareName(name)), if OfMain(pkg, name) then left else right, part)
  }

  /** Those of the projected names, one name after the other, and no more. */
  ghost predicate PairReports(pkg: QueryPackage, tables: TableMap, left: StoredChunk, right: StoredChunk,
                              columns: seq<EncryptedColumn>)
  {
    exists parts :: PairParts(pkg, tables, left, right, parts, columns)
  }

  ghost predicate PairParts(pkg: QueryPackage, tables: TableMap, left: StoredChunk, right: StoredChunk,
                            parts: seq<seq<EncryptedColumn>>, columns: seq<EncryptedColumn>)
  {
    && |parts| == |pkg.projectColumns| && columns == Flatten(parts, |parts|)
    && forall j :: 0 <= j < |parts| ==> NameReported(pkg, tables, left, right, pkg.projectColumns[j], parts[j])
  }

  lemma RenamedReported(name: string, c: ColumnSchema, chunk: StoredChunk)
    requires ColumnStored(c, chunk.columns)
    ensures ReportsColumn(name, c, chunk, RenamedResults(name, c, chunk.columns))
  {
    forall q | 0 <= q < PhysicalWidth(c)
      ensures RenamedResults(name, c, chunk.columns)[q] == Reported(name, c, q, chunk.columns[PhysicalAt(c, q)])
    {
    }
    if c.kind == STRING {
      assert forall q :: 0 <= q < c.maxLength ==> PhysicalAt(c, q) == CharAt(c.name, q);
    } else {
      assert PhysicalAt(c, 0) == Plain(c.name);
    }
  }

  lemma SideReported(pkg: QueryPackage, tables: TableMap, left: StoredChunk, right: StoredChunk, name: string)
    requires SideStored(pkg, tables, name, left, right)
    ensures NameReported(pkg, tables, left, right, name,
      RenamedResults(name, SideColumn(pkg, tables, name), SideChunk(pkg, name, left, right).columns))
  {
    RenamedReported(name, SideColumn(pkg, tables, name), SideChunk(pkg, name, left, right));
  }

  lemma {:induction false} ProjectionParts(pkg: QueryPackage, tables: TableMap, left: StoredChunk, right: StoredChunk,
                                           parts: seq<seq<EncryptedColumn>>, k: nat)
    requires k <= |pkg.projectColumns| == |parts|
    requires forall j :: 0 <= j < |parts| ==>
      var name := pkg.projectColumns[j];
      parts[j] == RenamedResults(name, SideColumn(pkg, tables, name), SideChunk(pkg, name, left, right).columns)
    ensures PairProjection(pkg, tables, left, right, k) == Flatten(parts, k)
  {
    if k > 0 {
      ProjectionParts(pkg, tables, left, right, parts, k - 1);
    }
  }

  lemma PairReported(pkg: QueryPackage, tables: TableMap, left: StoredChunk, right: StoredChunk)
    requires PairProjectable(pkg, tables, left, right)
    ensures PairReports(pkg, tables, left, right, PairProjection(pkg, tables, left, right, |pkg.projectColumns|))
  {
    var names := pkg.projectColumns;
    var parts := seq(|names|, j requires 0 <= j < |names| =>
      RenamedResults(names[j], SideColumn(pkg, tables, names[j]), SideChunk(pkg, names[j], left, right).columns));
    ProjectionParts(pkg, tables, left, right, parts, |names|);
    forall j | 0 <= j < |parts|
      ensures NameReported(pkg, tables, left, right, names[j], parts[j])
    {
      SideReported(pkg, tables, left, right, names[j]);
    }
    assert PairParts(pkg, tables, left, right, parts, PairProjection(pkg, tables, left, right, |names|));
  }

  /** Batch a * |R| + b reports left chunk a and right chunk b. */
  ghost predicate ReportsPair(pkg: QueryPackage, tables: TableMap, lefts: seq<StoredChunk>, rights: seq<StoredChunk>,
                              batches: seq<ResultBatch>, a: nat, b: nat)
    requires a < |lefts| && b < |rights|
  {
    var k := a * |rights| + b;
    k < |batches| && PairReports(pkg, tables, lefts[a], rights[b], batches[k].columns)
  }

  ghost predicate BatchesReport(pkg: QueryPackage, tables: TableMap, lefts: seq<StoredChunk>, rights: seq<StoredChunk>,
                                batches: seq<ResultBatch>)
  {
    forall a, b :: 0 <= a < |lefts| && 0 <= b < |rights| ==> ReportsPair(pkg, tables, lefts, rights, batches, a, b)
  }

  lemma BatchReported(p: OddPrime, pkg: QueryPackage, tables: TableMap, where: Option<Circuit>, rightKey: string,
                      pairs: seq<(StoredChunk, StoredChunk)>, batches: seq<ResultBatch>, k: nat, left: StoredChunk,
                      right: StoredChunk)
    requires ArePairBatches(p, pkg, tables, where, rightKey, pairs, batches)
    requires k < |pairs| && pairs[k] == (left, right)
    ensures k < |batches| && PairReports(pkg, tables, left, right, batches[k].columns)
  {
    assert IsPairBatch(p, pkg, tables, where, rightKey, left, right, k, batches[k]);
    PairReported(pkg, tables, left, right);
  }

  lemma PairPosition<A, B>(ls: seq<A>, rs: seq<B>, a: nat, b: nat) returns (k: nat)
    requires a < |ls| && b < |rs|
    ensures k == a * |rs| + b && k < |Pairs(ls, rs, |ls|)| && Pairs(ls, rs, |ls|)[k] == (ls[a], rs[b])
  {
    PairsAt(ls, rs, |ls|, a, b);
    k := a * |rs| + b;
  }

  lemma PairBatchReported(p: OddPrime, pkg: QueryPackage, tables: TableMap, where: Option<Circuit>, rightKey: string,
                          lefts: seq<StoredChunk>, rights: seq<StoredChunk>, batches: seq<ResultBatch>, a: nat, b: nat)
    requires ArePairBatches(p, pkg, tables, where, rightKey, Pairs(lefts, rights, |lefts|), batches)
    requires a < |lefts| && b < |rights|
    ensures ReportsPair(pkg, tables, lefts, rights, batches, a, b)
  {
    var k := PairPosition(lefts, rights, a, b);
    BatchReported(p, pkg, tables, where, rightKey, Pairs(lefts, rights, |lefts|), batches, k, lefts[a], rights[b]);
  }

  lemma BatchesReported(p: OddPrime, pkg: QueryPackage, tables: TableMap, where: Option<Circuit>, rightKey: string,
                        lefts: seq<StoredChunk>, rights: seq<StoredChunk>, batches: seq<ResultBatch>)
    requires ArePairBatches(p, pkg, tables, where, rightKey, Pairs(lefts, rights, |lefts|), batches)
    ensures BatchesReport(pkg, tables, lefts, rights, batches)
  {
    forall a, b | 0 <= a < |lefts| && 0 <= b < |rights|
      ensures ReportsPair(pkg, tables, lefts, rights, batches, a, b)
    {
      PairBatchReported(p, pkg, tables, where, rightKey, lefts, rights, batches, a, b);
    }
  }

  /** Batches numbered consecutively, one row and a mask each. */
  predicate PairNumbered(batches: seq<ResultBatch>) {
    forall k :: 0 <= k < |batches| ==>
      batches[k].batchId == ToU32(k) && batches[k].rowCount == 1 && batches[k].mask.Some?
  }

  lemma BatchesNumbered(p: OddPrime, pkg: QueryPackage, tables: TableMap, where: Option<Circuit>, rightKey: string,
                        pairs: seq<(StoredChunk, StoredChunk)>, batches: seq<ResultBatch>)
    requires ArePairBatches(p, pkg, tables, where, rightKey, pairs, batches)
    ensures PairNumbered(batches) && |batches| == |pairs|
  {
    forall k | 0 <= k < |batches|
      ensures batches[k].batchId == ToU32(k) && batches[k].rowCount == 1 && batches[k].mask.Some?
    {
      assert IsPairBatch(p, pkg, tables, where, rightKey, pairs[k].0, pairs[k].1, k, batches[k]);
    }
  }

  method ExecuteJoin(p: OddPrime, pkg: QueryPackage, tables: TableMap, storage: Storage, stack: nat)
    returns (r: Result<seq<ResultBatch>>)
    requires pkg.tableName in storage && pkg.joinedTableName in storage
    ensures r.Ok? <==>
      && JoinQualified(pkg) && FilterOf(pkg, stack).Ok?
      && LeftsFine(pkg, tables, FilterOf(pkg, stack).value, LeftKey(pkg), storage[pkg.tableName])
      && PairsFine(pkg, tables, FilterOf(pkg, stack).value, RightKey(pkg),
                   Pairs(storage[pkg.tableName], storage[pkg.joinedTableName], |storage[pkg.tableName]|))
    ensures r.Ok? ==>
      ArePairBatches(p, pkg, tables, FilterOf(pkg, stack).value, RightKey(pkg),
        Pairs(storage[pkg.tableName], storage[pkg.joinedTableName], |storage[pkg.tableName]|), r.value)
    ensures r.Ok? ==> ChunksJoin(pkg, tables, storage[pkg.tableName], storage[pkg.joinedTableName])
    ensures r.Ok? ==>
      && pkg.tableAlias + "." <= pkg.joinLeftColumn && pkg.joinedTableAlias + "." <= pkg.joinRightColumn
      && ChunksHoldKeys(pkg.joinLeftColumn[|pkg.tableAlias| + 1..], pkg.joinRightColumn[|pkg.joinedTableAlias| + 1..],
                        storage[pkg.tableName], storage[pkg.joinedTableName])
    ensures r.Ok? ==>
      BatchesReport(pkg, tables, storage[pkg.tableName], storage[pkg.joinedTableName], r.value)
    ensures r.Ok? ==>
      && |r.value| == |storage[pkg.tableName]| * |storage[pkg.joinedTableName]|
      && PairNumbered(r.value)
  {
    if !JoinQualified(pkg) {
      return Err(JoinNotQualified);
    }
    var where :- BuildFilter(pkg, stack);
    var uses := WhereUsesJoinedTable(pkg);
    r := ExecuteLefts(p, pkg, tables, where, uses, LeftKey(pkg), RightKey(pkg), storage[pkg.tableName],
                      storage[pkg.joinedTableName]);
    if r.Ok? {
      JoinNeeds(pkg, tables, where, LeftKey(pkg), RightKey(pkg), storage[pkg.tableName], storage[pkg.joinedTableName]);
      PairsAt(storage[pkg.tableName], storage[pkg.joinedTableName], |storage[pkg.tableName]|, 0, 0);
      BatchesNumbered(p, pkg, tables, where, RightKey(pkg),
                      Pairs(storage[pkg.tableName], storage[pkg.joinedTableName], |storage[pkg.tableName]|), r.value);
      BatchesReported(p, pkg, tables, where, RightKey(pkg), storage[pkg.tableName], storage[pkg.joinedTableName],
                      r.value);
    }
  }

  method ExecuteLefts(p: OddPrime, pkg: QueryPackage, tables: TableMap, where: Option<Circuit>, uses: bool,
                      leftKey: string, rightKey: string, lefts: seq<StoredChunk>, rights: seq<StoredChunk>)
    returns (r: Result<seq<ResultBatch>>)
    requires uses == UsesJoined(pkg) && (uses ==> where.Some?)
    ensures r.Ok? <==>
      && LeftsFine(pkg, tables, where, leftKey, lefts)
      && PairsFine(pkg, tables, where, rightKey, Pairs(lefts, rights, |lefts|))
    ensures r.Ok? ==> ArePairBatches(p, pkg, tables, where, rightKey, Pairs(lefts, rights, |lefts|), r.value)
  {
    var results: seq<ResultBatch> := [];
    for i := 0 to |lefts|
      invariant forall a :: 0 <= a < i ==> LeftFine(pkg, tables, where, leftKey, lefts[a])
      invariant PairsFine(pkg, tables, where, rightKey, Pairs(lefts, rights, i))
      invariant ArePairBatches(p, pkg, tables, where, rightKey, Pairs(lefts, rights, i), results)
    {
      var leftMask := LeftMask(p, pkg, tables, where, uses, leftKey, lefts[i]);
      if leftMask.Err? {
        return Err(leftMask.error);
      }
      var row := ExecuteRow(p, pkg, tables, where, uses, leftMask.value, rightKey, lefts[i], rights,
                            Pairs(lefts, rights, i), results);
      PairsFineStep(pkg, tables, where, rightKey, lefts, rights, i);
      if row.Err? {
        PairsFinePrefix(pkg, tables, where, rightKey, lefts, rights, i + 1, |lefts|);
        return Err(row.error);
      }
      results := row.value;
    }
    r := Ok(results);
  }

  lemma PairsFineStep(pkg: QueryPackage, tables: TableMap, where: Option<Circuit>, rightKey: string,
                      lefts: seq<StoredChunk>, rights: seq<StoredChunk>, i: nat)
    requires i < |lefts|
    ensures PairsFine(pkg, tables, where, rightKey, Pairs(lefts, rights, i + 1)) <==>
      PairsFine(pkg, tables, where, rightKey, Pairs(lefts, rights, i)) &&
      PairsFine(pkg, tables, where, rightKey, PairRow(lefts[i], rights, |rights|))
  {
    var a, b := Pairs(lefts, rights, i), PairRow(lefts[i], rights, |rights|);
    assert forall k :: 0 <= k < |a| ==> (a + b)[k] == a[k];
    assert forall k :: 0 <= k < |b| ==> (a + b)[|a| + k] == b[k];
  }

  lemma {:induction false} PairsFinePrefix(pkg: QueryPackage, tables: TableMap, where: Option<Circuit>,
                                           rightKey: string,
                                           lefts: seq<StoredChunk>, rights: seq<StoredChunk>, i: nat, n: nat)
    requires i <= n <= |lefts| && !PairsFine(pkg, tables, where, rightKey, Pairs(lefts, rights, i))
    ensures !PairsFine(pkg, tables, where, rightKey, Pairs(lefts, rights, n))
    decreases n - i
  {
    if i < n {
      PairsFineStep(pkg, tables, where, rightKey, lefts, rights, i);
      PairsFinePrefix(pkg, tables, where, rightKey, lefts, rights, i + 1, n);
    }
  }
}
