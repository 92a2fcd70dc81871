// The server's checks on a received package.

module Validator {
  import opened Common
  import opened Catalog
  import opened Circuit
  import opened Package
  import opened Rebuild

  /** The schema a possibly qualified name is looked up in; None when the joined
      table is unknown. */
  function TargetSchema(pkg: QueryPackage, tables: TableMap, name: string): Option<TableSchema>
    requires pkg.tableName in tables
  {
    var alias := if Qualified(name) then AliasPart(name) else pkg.tableAlias;
    if pkg.hasJoin && alias == pkg.joinedTableAlias then
      if pkg.joinedTableName in tables then Some(tables[pkg.joinedTableName]) else None
    else Some(tables[pkg.tableName])
  }

  predicate NameKnown(pkg: QueryPackage, tables: TableMap, name: string)
    requires pkg.tableName in tables
  {
    var target := TargetSchema(pkg, tables, name);
    target.Some? && target.value.HasColumn(BareName(name))
  }

  predicate CharEntry(entry: LiteralEntry, id: uint32) {
    entry.id == id && entry.logicalType == "STRING_CHAR" && !entry.bytes.Empty?
  }

  predicate HasCharEntry(literals: seq<LiteralEntry>, id: uint32) {
    exists i :: 0 <= i < |literals| && CharEntry(literals[i], id)
  }

  /** The literal block of a string node holds position k. */
  predicate HasPosition(literals: seq<LiteralEntry>, node: PredNode, k: nat) {
    HasCharEntry(literals, ToU32(node.literalId + k))
  }

  predicate StringNodeAccepted(pkg: QueryPackage, schema: TableSchema, node: PredNode) {
    && node.columnName != "" && node.stringWidth != 0
    && schema.HasColumn(node.columnName)
    && schema.Column(node.columnName).kind == STRING
    && node.stringWidth == schema.Column(node.columnName).maxLength
    && forall k :: 0 <= k < node.stringWidth ==> HasPosition(pkg.encryptedLiterals, node, k)
  }

  /** Validation of the node at idx with room for `stack` nested calls. */
  predicate TreeAccepted(pkg: QueryPackage, tables: TableMap, idx: uint32, stack: nat)
    requires pkg.tableName in tables
    decreases stack
  {
    && stack > 0
    && idx < |pkg.predicateNodes|
    && var node := pkg.predicateNodes[idx];
    if node.kind == ColumnNode then NameKnown(pkg, tables, node.columnName)
    else if node.kind == LiteralNode then FirstLiteral(pkg.encryptedLiterals, node.literalId).Some?
    else if node.kind == StringEqualNode || node.kind == StringNotEqualNode then
      StringNodeAccepted(pkg, tables[pkg.tableName], node)
    else
      && node.left != UINT32_MAX
      && (node.kind != NotNode ==> node.right != UINT32_MAX)
      && TreeAccepted(pkg, tables, node.left, stack - 1)
      && (node.kind != NotNode ==> TreeAccepted(pkg, tables, node.right, stack - 1))
  }

  predicate NoEmptyLiteral(literals: seq<LiteralEntry>) {
    forall i :: 0 <= i < |literals| ==> !literals[i].bytes.Empty?
  }

  predicate PackageAccepted(pkg: QueryPackage, tables: TableMap, paramSetId: string, stack: nat) {
    && pkg.protocolVersion == 2
    && pkg.tableName in tables
    && (forall k :: 0 <= k < |pkg.scanColumns| ==> tables[pkg.tableName].HasColumn(pkg.scanColumns[k]))
    && (forall k :: 0 <= k < |pkg.projectColumns| ==> NameKnown(pkg, tables, pkg.projectColumns[k]))
    && pkg.paramSetId == paramSetId
    && NoEmptyLiteral(pkg.encryptedLiterals)
    && (pkg.predicateNodes != [] ==> TreeAccepted(pkg, tables, ToU32(|pkg.predicateNodes| - 1), stack))
  }

  // ---- The validator ----

  method FindCharEntry(literals: seq<LiteralEntry>, id: uint32) returns (found: bool)
    ensures found <==> HasCharEntry(literals, id)
  {
    found := false;
    for i := 0 to |literals|
      invariant forall j :: 0 <= j < i ==> !CharEntry(literals[j], id)
    {
      if CharEntry(literals[i], id) {
        return true;
      }
    }
  }

  method ValidateStringNode(pkg: QueryPackage, schema: TableSchema, node: PredNode) returns (ok: bool)
    ensures ok <==> StringNodeAccepted(pkg, schema, node)
  {
    if node.columnName == "" || node.stringWidth == 0 || !schema.HasColumn(node.columnName) {
      return false;
    }
    var column := schema.Column(node.columnName);
    if column.kind != STRING || node.stringWidth != column.maxLength {
      return false;
    }
    for k := 0 to node.stringWidth
      invariant forall j :: 0 <= j < k ==> HasPosition(pkg.encryptedLiterals, node, j)
    {
      var found := FindCharEntry(pkg.encryptedLiterals, ToU32(node.literalId + k));
      assert found <==> HasPosition(pkg.encryptedLiterals, node, k);
      if !found {
        return false;
      }
    }
    ok := true;
  }

  method ValidatePredTree(pkg: QueryPackage, tables: TableMap, nodeIdx: uint32, stack: nat) returns (ok: bool)
    requires pkg.tableName in tables
    ensures ok <==> TreeAccepted(pkg, tables, nodeIdx, stack)
    decreases stack
  {
    if stack == 0 || nodeIdx >= |pkg.predicateNodes| {
      return false;
    }
    var node := pkg.predicateNodes[nodeIdx];
    if node.kind == ColumnNode {
      return NameKnown(pkg, tables, node.columnName);
    }
    if node.kind == LiteralNode {
      var entry := FindLiteral(pkg.encryptedLiterals, node.literalId);
      return entry.Some?;
    }
    if node.kind == StringEqualNode || node.kind == StringNotEqualNode {
      ok := ValidateStringNode(pkg, tables[pkg.tableName], node);
      return;
    }
    if node.left == UINT32_MAX || (node.kind != NotNode && node.right == UINT32_MAX) {
      return false;
    }
    ok := ValidatePredTree(pkg, tables, node.left, stack - 1);
    if ok && node.kind != NotNode {
      ok := ValidatePredTree(pkg, tables, node.right, stack - 1);
    }
  }

  method Validate(pkg: QueryPackage, tables: TableMap, paramSetId: string, stack: nat) returns (ok: bool)
    ensures ok <==> PackageAccepted(pkg, tables, paramSetId, stack)
  {
    if pkg.protocolVersion != 2 || pkg.tableName !in tables {
      return false;
    }
    for k := 0 to |pkg.scanColumns|
      invariant forall j :: 0 <= j < k ==> tables[pkg.tableName].HasColumn(pkg.scanColumns[j])
    {
      if !tables[pkg.tableName].HasColumn(pkg.scanColumns[k]) {
        return false;
      }
    }
    for k := 0 to |pkg.projectColumns|
      invariant forall j :: 0 <= j < k ==> NameKnown(pkg, tables, pkg.projectColumns[j])
    {
      if !NameKnown(pkg, tables, pkg.projectColumns[k]) {
        return false;
      }
    }
    if pkg.paramSetId != paramSetId {
      return false;
    }
    for k := 0 to |pkg.encryptedLiterals|
      invariant forall j :: 0 <= j < k ==> !pkg.encryptedLiterals[j].bytes.Empty?
    {
      if pkg.encryptedLiterals[k].bytes.Empty? {
        return false;
      }
    }
    ok := true;
    if pkg.predicateNodes != [] {
      ok := ValidatePredTree(pkg, tables, ToU32(|pkg.predicateNodes| - 1), stack);
    }
  }

  // ---- Soundness: what is accepted can be rebuilt ----

  predicate ColumnKnown(column: PhysicalColumn, pkg: QueryPackage, tables: TableMap)
    requires pkg.tableName in tables
  {
    match column
    case Plain(name) => NameKnown(pkg, tables, name)
    case CharAt(name, k) =>
      && tables[pkg.tableName].HasColumn(name)
      && tables[pkg.tableName].Column(name).kind == STRING
      && k < tables[pkg.tableName].Column(name).maxLength
    case AliasedCharAt(_, _, _) => false
  }

  /** The circuit reads only columns of the package's tables, and only character
      positions a string column of the main table has. */
  predicate ReadsKnownColumns(c: Circuit, pkg: QueryPackage, tables: TableMap)
    requires pkg.tableName in tables
  {
    forall column :: column in ColumnsRead(c) ==> ColumnKnown(column, pkg, tables)
  }

  lemma {:induction false} PositionTestsFound(literals: seq<LiteralEntry>, node: PredNode, k: nat)
    requires NoEmptyLiteral(literals)
    requires forall j :: 0 <= j < k ==> HasPosition(literals, node, j)
    ensures PositionTests(literals, node, k).Ok?
    ensures forall j :: 0 <= j < k ==>
      var c := PositionTests(literals, node, k).value[j];
      c.EqualTo? && c.left == Column(CharAt(node.columnName, j)) && c.right.Literal?
  {
    if k > 0 {
      PositionTestsFound(literals, node, k - 1);
      assert HasPosition(literals, node, k - 1);
      assert FirstLiteral(literals, ToU32(node.literalId + k - 1)).Some?;
    }
  }

  lemma StringNodeSound(pkg: QueryPackage, tables: TableMap, node: PredNode)
    requires pkg.tableName in tables && NoEmptyLiteral(pkg.encryptedLiterals)
    requires StringNodeAccepted(pkg, tables[pkg.tableName], node)
    ensures StringCircuit(pkg.encryptedLiterals, node).Ok?
    ensures ReadsKnownColumns(StringCircuit(pkg.encryptedLiterals, node).value, pkg, tables)
  {
    PositionTestsFound(pkg.encryptedLiterals, node, node.stringWidth);
    var tests := PositionTests(pkg.encryptedLiterals, node, node.stringWidth).value;
    forall column | column in ColumnsRead(Combine(tests, 0, |tests|))
      ensures ColumnKnown(column, pkg, tables)
    {
      CombineReads(tests, 0, |tests|, column);
      var k :| 0 <= k < |tests| && column in ColumnsRead(tests[k]);
    }
  }

  lemma BinaryReads(kind: PredNodeKind, l: Circuit, r: Circuit)
    ensures ColumnsRead(BinaryCircuit(kind, l, r)) == ColumnsRead(l) + ColumnsRead(r)
  {
  }

  /** For any package at all, cyclic ones included: wherever validation accepts,
      rebuilding with the same stack succeeds - no missing literal, bad index, empty
      width or exhausted stack - and reads only known columns. */
  lemma {:induction false} ValidatorSound(pkg: QueryPackage, tables: TableMap, idx: uint32, stack: nat)
    requires pkg.tableName in tables && NoEmptyLiteral(pkg.encryptedLiterals)
    requires TreeAccepted(pkg, tables, idx, stack)
    ensures RebuildNode(pkg, idx, stack).Ok?
    ensures ReadsKnownColumns(RebuildNode(pkg, idx, stack).value, pkg, tables)
    decreases stack
  {
    var node := pkg.predicateNodes[idx];
    if node.kind == StringEqualNode || node.kind == StringNotEqualNode {
      StringNodeSound(pkg, tables, node);
    } else if node.kind != ColumnNode && node.kind != LiteralNode {
      ValidatorSound(pkg, tables, node.left, stack - 1);
      if node.kind != NotNode {
        ValidatorSound(pkg, tables, node.right, stack - 1);
        BinaryReads(node.kind, RebuildNode(pkg, node.left, stack - 1).value,
                    RebuildNode(pkg, node.right, stack - 1).value);
      }
    }
  }
}
