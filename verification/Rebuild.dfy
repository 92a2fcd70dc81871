// The server rebuilds an expression from the flat node array.

module Rebuild {
  import opened Common
  import opened Catalog
  import opened Ast
  import opened PrimeField
  import opened Circuit
  import opened Package
  import opened Encryptor

  /** How the server composes two operands: >= and <= are built from GT/LT and EQ. */
  function BinaryCircuit(kind: PredNodeKind, l: Circuit, r: Circuit): Circuit {
    match kind
    case EqualNode => EqualTo(l, r)
    case NotEqualNode => Negation(EqualTo(l, r))
    case GreaterThanNode => Greater(l, r)
    case LessThanNode => Less(l, r)
    case GreaterEqualNode => Disj(Greater(l, r), EqualTo(l, r))
    case LessEqualNode => Disj(Less(l, r), EqualTo(l, r))
    case OrNode => Disj(l, r)
    case _ => Conj(l, r)
  }

  function LiteralCiphertext(literals: seq<LiteralEntry>, id: uint32): Result<Ciphertext> {
    match FirstLiteral(literals, id)
    case None => Err(LiteralNotFound)
    case Some(entry) => if entry.bytes.Empty? then Err(EmptyCiphertext) else Ok(entry.bytes.ciphertext)
  }

  function PositionTest(column: string, position: nat, ct: Ciphertext): Circuit {
    EqualTo(Column(CharAt(column, position)), Literal(ct))
  }

  function LiteralCircuit(literals: seq<LiteralEntry>, id: uint32): Result<Circuit> {
    match LiteralCiphertext(literals, id)
    case Ok(ct) => Ok(Literal(ct))
    case Err(error) => Err(error)
  }

  function Lift(kind: PredNodeKind, l: Result<Circuit>, r: Result<Circuit>): Result<Circuit> {
    if l.Err? then l else if r.Err? then r else Ok(BinaryCircuit(kind, l.value, r.value))
  }

  function LiftNot(l: Result<Circuit>): Result<Circuit> {
    if l.Err? then l else Ok(Negation(l.value))
  }

  /** The comparisons of the first k character positions. */
  function PositionTests(literals: seq<LiteralEntry>, node: PredNode, k: nat): (r: Result<seq<Circuit>>)
    ensures r.Ok? ==> |r.value| == k
  {
    if k == 0 then Ok([])
    else
      var earlier :- PositionTests(literals, node, k - 1);
      var ct :- LiteralCiphertext(literals, ToU32(node.literalId + k - 1));
      Ok(earlier + [PositionTest(node.columnName, k - 1, ct)])
  }

  function StringCircuit(literals: seq<LiteralEntry>, node: PredNode): Result<Circuit> {
    match PositionTests(literals, node, node.stringWidth)
    case Err(error) => Err(error)
    case Ok(tests) =>
      if tests == [] then Err(EmptyStringWidth)
      else
        var all := Combine(tests, 0, |tests|);
        Ok(if node.kind == StringNotEqualNode then Negation(all) else all)
  }

  /** Rebuilding the node at an index with room for `stack` nested calls: a received
      array may hold cycles. */
  function RebuildNode(pkg: QueryPackage, idx: uint32, stack: nat): Result<Circuit>
    decreases stack
  {
    if stack == 0 then Err(StackExhausted)
    else if idx >= |pkg.predicateNodes| then Err(NodeIndexOutOfRange)
    else
      var node := pkg.predicateNodes[idx];
      if node.kind == ColumnNode then Ok(Column(Plain(node.columnName)))
      else if node.kind == LiteralNode then LiteralCircuit(pkg.encryptedLiterals, node.literalId)
      else if node.kind == StringEqualNode || node.kind == StringNotEqualNode then
        StringCircuit(pkg.encryptedLiterals, node)
      else if node.kind == NotNode then LiftNot(RebuildNode(pkg, node.left, stack - 1))
      else Lift(node.kind, RebuildNode(pkg, node.left, stack - 1), RebuildNode(pkg, node.right, stack - 1))
  }

  // ---- The server's code ----

  method BuildStringCircuit(literals: seq<LiteralEntry>, node: PredNode) returns (r: Result<Circuit>)
    ensures r == StringCircuit(literals, node)
  {
    var comparisons: seq<Circuit> := [];
    for position := 0 to node.stringWidth
      invariant PositionTests(literals, node, position) == Ok(comparisons)
    {
      var entry := FindLiteral(literals, ToU32(node.literalId + position));
      if entry.None? {
        PositionTestsFail(literals, node, position + 1, node.stringWidth);
        return Err(LiteralNotFound);
      }
      if entry.value.bytes.Empty? {
        PositionTestsFail(literals, node, position + 1, node.stringWidth);
        return Err(EmptyCiphertext);
      }
      comparisons := comparisons + [PositionTest(node.columnName, position, entry.value.bytes.ciphertext)];
    }
    if comparisons == [] {
      return Err(EmptyStringWidth);
    }
    var all := Combine(comparisons, 0, |comparisons|);
    r := Ok(if node.kind == StringNotEqualNode then Negation(all) else all);
  }

  lemma {:induction false} PositionTestsFail(literals: seq<LiteralEntry>, node: PredNode, k: nat, width: nat)
    requires k <= width && PositionTests(literals, node, k).Err?
    ensures PositionTests(literals, node, width) == Err(PositionTests(literals, node, k).error)
    decreases width - k
  {
    if k < width {
      PositionTestsFail(literals, node, k + 1, width);
    }
  }

  method BuildExpression(pkg: QueryPackage, nodeIdx: uint32, stack: nat) returns (r: Result<Circuit>)
    ensures r == RebuildNode(pkg, nodeIdx, stack)
    decreases stack
  {
    if stack == 0 {
      return Err(StackExhausted);
    }
    if nodeIdx >= |pkg.predicateNodes| {
      return Err(NodeIndexOutOfRange);
    }
    var node := pkg.predicateNodes[nodeIdx];
    match node.kind {
      case ColumnNode =>
        r := Ok(Column(Plain(node.columnName)));
      case LiteralNode =>
        var entry := FindLiteral(pkg.encryptedLiterals, node.literalId);
        if entry.None? {
          return Err(LiteralNotFound);
        }
        if entry.value.bytes.Empty? {
          return Err(EmptyCiphertext);
        }
        r := Ok(Literal(entry.value.bytes.ciphertext));
      case StringEqualNode =>
        r := BuildStringCircuit(pkg.encryptedLiterals, node);
      case StringNotEqualNode =>
        r := BuildStringCircuit(pkg.encryptedLiterals, node);
      case NotNode =>
        var l :- BuildExpression(pkg, node.left, stack - 1);
        r := Ok(Negation(l));
      case _ =>
        var l :- BuildExpression(pkg, node.left, stack - 1);
        var rr :- BuildExpression(pkg, node.right, stack - 1);
        r := Ok(BinaryCircuit(node.kind, l, rr));
    }
  }

  // ---- The circuit a tree stands for ----

  function StringTests(p: OddPrime, slotCount: nat, column: string, value: string, width: nat): seq<Circuit> {
    seq(width, k requires 0 <= k < width =>
      PositionTest(column, k, EncryptScalar(p, slotCount, PaddedCode(value, k))))
  }

  function StringTest(p: OddPrime, slotCount: nat, op: CmpOp, column: string, value: string, width: nat): Circuit
    requires width > 0
  {
    var all := Combine(StringTests(p, slotCount, column, value, width), 0, width);
    if op == Equal then all else Negation(all)
  }

  /** Every compared string column has room for at least one character. */
  predicate WidthsPositive(e: Expr, schema: TableSchema)
    requires Compilable(e, schema)
  {
    if IsBinary(e) then WidthsPositive(e.left, schema) && WidthsPositive(e.right, schema)
    else if e.Not? then WidthsPositive(e.left, schema)
    else if e.Compare? then StringWidth(e.left, e.right, schema) > 0
    else true
  }

  /** Translating the tree directly, without the flat array. */
  function Translate(p: OddPrime, slotCount: nat, e: Expr, schema: TableSchema): Circuit
    requires Compilable(e, schema) && WidthsPositive(e, schema)
  {
    if IsBinary(e) then
      BinaryCircuit(BinaryKind(e), Translate(p, slotCount, e.left, schema), Translate(p, slotCount, e.right, schema))
    else if e.Not? then Negation(Translate(p, slotCount, e.left, schema))
    else if e.ColumnRef? then Column(Plain(e.name))
    else if e.IntLiteral? then Literal(EncryptScalar(p, slotCount, e.intValue))
    else
      StringTest(p, slotCount, e.op, StringColumn(e.left, e.right), StringOperand(e.left, e.right),
                 StringWidth(e.left, e.right, schema))
  }

  function Height(e: Expr): (h: nat)
    ensures 0 < h <= NodeCount(e)
  {
    if IsBinary(e) then 1 + Max(Height(e.left), Height(e.right))
    else if e.Not? then 1 + Height(e.left)
    else 1
  }

  // ---- Rebuilding undoes linearising ----

  /** Node idx of the flat array stands for the tree e. */
  ghost predicate Represents(p: OddPrime, slotCount: nat, nodes: seq<PredNode>, literals: seq<LiteralEntry>,
                             idx: nat, e: Expr, schema: TableSchema)
    requires Compilable(e, schema)
    decreases e
  {
    && idx < |nodes|
    && var node := nodes[idx];
    if IsBinary(e) then
      && node.kind == BinaryKind(e)
      && Represents(p, slotCount, nodes, literals, node.left, e.left, schema)
      && Represents(p, slotCount, nodes, literals, node.right, e.right, schema)
    else if e.Not? then
      node.kind == NotNode && Represents(p, slotCount, nodes, literals, node.left, e.left, schema)
    else if e.ColumnRef? then
      node.kind == ColumnNode && node.columnName == e.name
    else if e.IntLiteral? then
      && node.kind == LiteralNode
      && node.literalId < |literals|
      && literals[node.literalId] == EncryptEntry(p, slotCount, node.literalId, "INT64", e.intValue)
    else
      var width := StringWidth(e.left, e.right, schema);
      && node.literalId + width <= |literals|
      && node == StringNode(e.op, StringColumn(e.left, e.right), node.literalId, width)
      && literals[node.literalId..node.literalId + width] ==
           StringBlock(p, slotCount, StringOperand(e.left, e.right), width, node.literalId)
  }

  /** Appending to the tables does not disturb what is already represented. */
  lemma {:induction false} RepresentsStable(p: OddPrime, slotCount: nat, st: Tables, r: Tables, idx: nat, e: Expr,
                                            schema: TableSchema)
    requires Compilable(e, schema) && st.nodes <= r.nodes && st.literals <= r.literals
    requires Represents(p, slotCount, st.nodes, st.literals, idx, e, schema)
    ensures Represents(p, slotCount, r.nodes, r.literals, idx, e, schema)
    decreases e
  {
    var node := st.nodes[idx];
    assert r.nodes[idx] == node;
    if IsBinary(e) {
      RepresentsStable(p, slotCount, st, r, node.left, e.left, schema);
      RepresentsStable(p, slotCount, st, r, node.right, e.right, schema);
    } else if e.Not? {
      RepresentsStable(p, slotCount, st, r, node.left, e.left, schema);
    } else if e.Compare? {
      var m, width := node.literalId, StringWidth(e.left, e.right, schema);
      assert r.literals[m..m + width] == st.literals[m..m + width];
    }
  }

  ghost predicate RootRepresents(p: OddPrime, slotCount: nat, r: Tables, e: Expr, schema: TableSchema)
    requires Compilable(e, schema)
  {
    r.nodes != [] && Represents(p, slotCount, r.nodes, r.literals, |r.nodes| - 1, e, schema)
  }

  lemma ParentRepresents(p: OddPrime, slotCount: nat, e: Expr, schema: TableSchema, left: Tables, both: Tables)
    requires IsBinary(e) && Compilable(e, schema)
    requires left.nodes <= both.nodes && left.literals <= both.literals && |both.nodes| <= UINT32_MAX
    requires RootRepresents(p, slotCount, left, e.left, schema) && RootRepresents(p, slotCount, both, e.right, schema)
    ensures RootRepresents(p, slotCount, WithParent(BinaryKind(e), left, both), e, schema)
  {
    var r := WithParent(BinaryKind(e), left, both);
    RepresentsStable(p, slotCount, left, r, |left.nodes| - 1, e.left, schema);
    RepresentsStable(p, slotCount, both, r, |both.nodes| - 1, e.right, schema);
    var node := r.nodes[|r.nodes| - 1];
    assert node.left == |left.nodes| - 1 && node.right == |both.nodes| - 1;
  }

  lemma NotRepresents(p: OddPrime, slotCount: nat, e: Expr, schema: TableSchema, left: Tables)
    requires e.Not? && Compilable(e, schema) && |left.nodes| <= UINT32_MAX
    requires RootRepresents(p, slotCount, left, e.left, schema)
    ensures RootRepresents(p, slotCount, WithNot(left), e, schema)
  {
    var r := WithNot(left);
    RepresentsStable(p, slotCount, left, r, |left.nodes| - 1, e.left, schema);
    assert r.nodes[|r.nodes| - 1].left == |left.nodes| - 1;
  }

  lemma LeafRepresents(p: OddPrime, slotCount: nat, e: Expr, schema: TableSchema, st: Tables)
    requires Compilable(e, schema) && !IsBinary(e) && !e.Not?
    requires |After(p, slotCount, e, schema, st).literals| <= UINT32_MAX
    ensures RootRepresents(p, slotCount, After(p, slotCount, e, schema, st), e, schema)
  {
  }

  /** The last node the walk appends stands for the tree, provided 32-bit indices
      and ids can address the tables. */
  lemma {:induction false} WalkRepresents(p: OddPrime, slotCount: nat, e: Expr, schema: TableSchema, st: Tables)
    requires Compilable(e, schema)
    requires |After(p, slotCount, e, schema, st).nodes| <= UINT32_MAX
    requires |After(p, slotCount, e, schema, st).literals| <= UINT32_MAX
    ensures RootRepresents(p, slotCount, After(p, slotCount, e, schema, st), e, schema)
  {
    if IsBinary(e) {
      var left := After(p, slotCount, e.left, schema, st);
      var both := After(p, slotCount, e.right, schema, left);
      WalkExtends(p, slotCount, e.right, schema, left);
      WalkRepresents(p, slotCount, e.left, schema, st);
      WalkRepresents(p, slotCount, e.right, schema, left);
      ParentRepresents(p, slotCount, e, schema, left, both);
    } else if e.Not? {
      WalkRepresents(p, slotCount, e.left, schema, st);
      NotRepresents(p, slotCount, e, schema, After(p, slotCount, e.left, schema, st));
    } else {
      LeafRepresents(p, slotCount, e, schema, st);
    }
  }

  lemma PositionFound(p: OddPrime, slotCount: nat, literals: seq<LiteralEntry>, m: nat, value: string, width: nat,
                      k: nat)
    requires Numbered(literals) && m + width <= |literals| <= UINT32_MAX && k < width
    requires literals[m..m + width] == StringBlock(p, slotCount, value, width, m)
    ensures LiteralCiphertext(literals, ToU32(m + k)) == Ok(EncryptScalar(p, slotCount, PaddedCode(value, k)))
  {
    NumberedLookup(literals, m + k);
    assert literals[m + k] == literals[m..m + width][k];
  }

  /** The literal of position k is found and makes the k-th of these tests. */
  predicate PositionReads(literals: seq<LiteralEntry>, node: PredNode, tests: seq<Circuit>, k: nat)
    requires k < |tests|
  {
    var ct := LiteralCiphertext(literals, ToU32(node.literalId + k));
    ct.Ok? && tests[k] == PositionTest(node.columnName, k, ct.value)
  }

  lemma {:induction false} PositionsRead(literals: seq<LiteralEntry>, node: PredNode, tests: seq<Circuit>, k: nat)
    requires k <= |tests| && forall j :: 0 <= j < |tests| ==> PositionReads(literals, node, tests, j)
    ensures PositionTests(literals, node, k) == Ok(tests[..k])
  {
    if k > 0 {
      PositionsRead(literals, node, tests, k - 1);
      assert PositionReads(literals, node, tests, k - 1);
      assert tests[..k] == tests[..k - 1] + [tests[k - 1]];
    }
  }

  lemma StringTestsRebuilt(p: OddPrime, slotCount: nat, literals: seq<LiteralEntry>, m: nat, node: PredNode,
                           value: string, width: nat)
    requires Numbered(literals) && m + width <= |literals| <= UINT32_MAX && node.literalId == m
    requires literals[m..m + width] == StringBlock(p, slotCount, value, width, m)
    ensures PositionTests(literals, node, width) == Ok(StringTests(p, slotCount, node.columnName, value, width))
  {
    var tests := StringTests(p, slotCount, node.columnName, value, width);
    forall j | 0 <= j < width
      ensures PositionReads(literals, node, tests, j)
    {
      PositionFound(p, slotCount, literals, m, value, width, j);
    }
    PositionsRead(literals, node, tests, width);
    assert tests[..width] == tests;
  }

  /** A string node whose literal block is in place rebuilds to the balanced AND of
      its position tests. */
  lemma StringRebuilt(p: OddPrime, slotCount: nat, op: CmpOp, column: string, value: string, width: nat,
                      literals: seq<LiteralEntry>, m: nat)
    requires Numbered(literals) && m + width <= |literals| <= UINT32_MAX
    requires literals[m..m + width] == StringBlock(p, slotCount, value, width, m)
    ensures StringCircuit(literals, StringNode(op, column, m, width)) ==
      if width == 0 then Err(EmptyStringWidth) else Ok(StringTest(p, slotCount, op, column, value, width))
  {
    var node := StringNode(op, column, m, width);
    StringTestsRebuilt(p, slotCount, literals, m, node, value, width);
  }

  function Rebuilt(p: OddPrime, slotCount: nat, e: Expr, schema: TableSchema): Result<Circuit>
    requires Compilable(e, schema)
  {
    if WidthsPositive(e, schema) then Ok(Translate(p, slotCount, e, schema)) else Err(EmptyStringWidth)
  }

  /** If the children of a node rebuild to the circuits of the subtrees, the node
      rebuilds to the circuit of the tree. */
  lemma NodeRebuilt(p: OddPrime, slotCount: nat, e: Expr, schema: TableSchema, pkg: QueryPackage, idx: uint32,
                    node: PredNode, stack: nat)
    requires Compilable(e, schema) && (IsBinary(e) || e.Not?) && stack > 0
    requires idx < |pkg.predicateNodes| && pkg.predicateNodes[idx] == node
    requires node.kind == if e.Not? then NotNode else BinaryKind(e)
    requires RebuildNode(pkg, node.left, stack - 1) == Rebuilt(p, slotCount, e.left, schema)
    requires IsBinary(e) ==> RebuildNode(pkg, node.right, stack - 1) == Rebuilt(p, slotCount, e.right, schema)
    ensures RebuildNode(pkg, idx, stack) == Rebuilt(p, slotCount, e, schema)
  {
    if e.Not? {
      assert RebuildNode(pkg, idx, stack) == LiftNot(Rebuilt(p, slotCount, e.left, schema));
    } else {
      assert RebuildNode(pkg, idx, stack) ==
        Lift(BinaryKind(e), Rebuilt(p, slotCount, e.left, schema), Rebuilt(p, slotCount, e.right, schema));
    }
  }

  /** The children of a composed tree's node stand for its subtrees. */
  lemma ChildrenRepresented(p: OddPrime, slotCount: nat, e: Expr, schema: TableSchema, pkg: QueryPackage, idx: uint32,
                            node: PredNode)
    requires Compilable(e, schema) && (IsBinary(e) || e.Not?)
    requires Represents(p, slotCount, pkg.predicateNodes, pkg.encryptedLiterals, idx, e, schema)
    requires pkg.predicateNodes[idx] == node
    ensures node.kind == if e.Not? then NotNode else BinaryKind(e)
    ensures node.left < |pkg.predicateNodes|
    ensures Represents(p, slotCount, pkg.predicateNodes, pkg.encryptedLiterals, node.left, e.left, schema)
    ensures IsBinary(e) ==> node.right < |pkg.predicateNodes|
    ensures IsBinary(e) ==>
      Represents(p, slotCount, pkg.predicateNodes, pkg.encryptedLiterals, node.right, e.right, schema)
  {
  }

  lemma LeafRebuilt(p: OddPrime, slotCount: nat, e: Expr, schema: TableSchema, pkg: QueryPackage, idx: uint32,
                    stack: nat)
    requires Compilable(e, schema) && !IsBinary(e) && !e.Not? && stack > 0
    requires Numbered(pkg.encryptedLiterals) && |pkg.encryptedLiterals| <= UINT32_MAX
    requires Represents(p, slotCount, pkg.predicateNodes, pkg.encryptedLiterals, idx, e, schema)
    ensures RebuildNode(pkg, idx, stack) == Rebuilt(p, slotCount, e, schema)
  {
    var node := pkg.predicateNodes[idx];
    if e.Compare? {
      StringRebuilt(p, slotCount, e.op, StringColumn(e.left, e.right), StringOperand(e.left, e.right),
                    StringWidth(e.left, e.right, schema), pkg.encryptedLiterals, node.literalId);
    } else if e.IntLiteral? {
      NumberedLookup(pkg.encryptedLiterals, node.literalId);
    }
  }

  /** Rebuilding a node that stands for a tree gives the circuit of the tree, and
      fails exactly when some compared string column has width zero. */
  lemma {:induction false} RebuildRepresented(p: OddPrime, slotCount: nat, e: Expr, schema: TableSchema,
                                              pkg: QueryPackage, idx: uint32, stack: nat)
    requires Compilable(e, schema) && stack >= Height(e)
    requires Numbered(pkg.encryptedLiterals) && |pkg.encryptedLiterals| <= UINT32_MAX
    requires Represents(p, slotCount, pkg.predicateNodes, pkg.encryptedLiterals, idx, e, schema)
    ensures RebuildNode(pkg, idx, stack) == Rebuilt(p, slotCount, e, schema)
    decreases e, 1
  {
    if IsBinary(e) || e.Not? {
      ParentRebuilt(p, slotCount, e, schema, pkg, idx, pkg.predicateNodes[idx], stack);
    } else {
      LeafRebuilt(p, slotCount, e, schema, pkg, idx, stack);
    }
  }

  lemma {:induction false} ParentRebuilt(p: OddPrime, slotCount: nat, e: Expr, schema: TableSchema,
                                         pkg: QueryPackage, idx: uint32, node: PredNode, stack: nat)
    requires Compilable(e, schema) && (IsBinary(e) || e.Not?) && stack >= Height(e)
    requires Numbered(pkg.encryptedLiterals) && |pkg.encryptedLiterals| <= UINT32_MAX
    requires Represents(p, slotCount, pkg.predicateNodes, pkg.encryptedLiterals, idx, e, schema)
    requires pkg.predicateNodes[idx] == node
    ensures RebuildNode(pkg, idx, stack) == Rebuilt(p, slotCount, e, schema)
    decreases e, 0
  {
    ChildrenRepresented(p, slotCount, e, schema, pkg, idx, node);
    RebuildRepresented(p, slotCount, e.left, schema, pkg, node.left, stack - 1);
    if IsBinary(e) {
      RebuildRepresented(p, slotCount, e.right, schema, pkg, node.right, stack - 1);
    }
    NodeRebuilt(p, slotCount, e, schema, pkg, idx, node, stack);
  }
}
