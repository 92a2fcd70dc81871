// Linearising a predicate tree into the node array and the literal table.

module Encryptor {
  import opened Common
  import opened Catalog
  import opened Ast
  import opened PrimeField
  import opened Circuit
  import opened Package

  function PaddedCode(s: string, k: nat): nat {
    if k < |s| then Code(s[k]) else 0
  }

  function EncryptEntry(p: OddPrime, slotCount: nat, id: nat, logicalType: string, v: int): LiteralEntry {
    LiteralEntry(ToU32(id), logicalType, Serialized(EncryptScalar(p, slotCount, v)))
  }

  /** The literal block of a string: one entry per position, zero padded. */
  function StringBlock(p: OddPrime, slotCount: nat, value: string, maxLength: nat, firstId: nat): seq<LiteralEntry> {
    seq(maxLength, k requires 0 <= k < maxLength =>
      EncryptEntry(p, slotCount, firstId + k, "STRING_CHAR", PaddedCode(value, k)))
  }

  function CompareKind(op: CmpOp): PredNodeKind {
    match op
    case Equal => EqualNode
    case NotEqual => NotEqualNode
    case GreaterThan => GreaterThanNode
    case LessThan => LessThanNode
    case GreaterEqual => GreaterEqualNode
    case LessEqual => LessEqualNode
  }

  /** Trees linearised as a node over their two linearised children: AND, OR and
      every comparison that is not between a column and a string literal. */
  predicate IsBinary(e: Expr) {
    e.And? || e.Or? || (e.Compare? && !IsStringComparison(e.left, e.right))
  }

  function BinaryKind(e: Expr): PredNodeKind
    requires IsBinary(e)
  {
    if e.And? then AndNode else if e.Or? then OrNode else CompareKind(e.op)
  }

  /** Exactly the trees that are linearised without an exception: string literals
      only against columns, and those columns exist. */
  predicate Compilable(e: Expr, schema: TableSchema) {
    if IsBinary(e) then Compilable(e.left, schema) && Compilable(e.right, schema)
    else if e.Not? then Compilable(e.left, schema)
    else if e.Compare? then schema.HasColumn(BareName(StringColumn(e.left, e.right)))
    else !e.StringLiteral?
  }

  function StringWidth(l: Expr, r: Expr, schema: TableSchema): nat
    requires IsStringComparison(l, r) && schema.HasColumn(BareName(StringColumn(l, r)))
  {
    schema.Column(BareName(StringColumn(l, r))).maxLength
  }

  function NodeCount(e: Expr): (k: nat)
    ensures k > 0
  {
    if IsBinary(e) then NodeCount(e.left) + NodeCount(e.right) + 1
    else if e.Not? then NodeCount(e.left) + 1
    else 1
  }

  function LiteralCount(e: Expr, schema: TableSchema): nat
    requires Compilable(e, schema)
  {
    if IsBinary(e) then LiteralCount(e.left, schema) + LiteralCount(e.right, schema)
    else if e.Not? then LiteralCount(e.left, schema)
    else if e.Compare? then StringWidth(e.left, e.right, schema)
    else if e.IntLiteral? then 1
    else 0
  }

  // ---- The walk, threading the node array and the literal table ----

  datatype Tables = Tables(nodes: seq<PredNode>, literals: seq<LiteralEntry>)

  function IntNode(id: nat): PredNode { BLANK_NODE.(kind := LiteralNode, literalId := ToU32(id)) }

  function StringNode(op: CmpOp, column: string, id: nat, width: nat): PredNode {
    BLANK_NODE.(kind := if op == Equal then StringEqualNode else StringNotEqualNode,
               columnName := column, literalId := ToU32(id), stringWidth := ToU32(width))
  }

  /** Appends a node whose children are the last nodes of the two arrays. */
  function WithParent(kind: PredNodeKind, left: Tables, both: Tables): Tables
    requires left.nodes != [] && both.nodes != []
  {
    both.(nodes := both.nodes + [BLANK_NODE.(kind := kind, left := ToU32(|left.nodes| - 1),
                                            right := ToU32(|both.nodes| - 1))])
  }

  function WithNot(left: Tables): Tables
    requires left.nodes != []
  {
    left.(nodes := left.nodes + [BLANK_NODE.(kind := NotNode, left := ToU32(|left.nodes| - 1))])
  }

  /** The tables after the walk over e. */
  function After(p: OddPrime, slotCount: nat, e: Expr, schema: TableSchema, st: Tables): (r: Tables)
    requires Compilable(e, schema)
    ensures r.nodes != []
  {
    if IsBinary(e) then
      var left := After(p, slotCount, e.left, schema, st);
      WithParent(BinaryKind(e), left, After(p, slotCount, e.right, schema, left))
    else if e.Not? then WithNot(After(p, slotCount, e.left, schema, st))
    else if e.ColumnRef? then st.(nodes := st.nodes + [BLANK_NODE.(columnName := e.name)])
    else if e.IntLiteral? then
      Tables(st.nodes + [IntNode(|st.literals|)],
            st.literals + [EncryptEntry(p, slotCount, |st.literals|, "INT64", e.intValue)])
    else
      var width := StringWidth(e.left, e.right, schema);
      Tables(st.nodes + [StringNode(e.op, StringColumn(e.left, e.right), |st.literals|, width)],
            st.literals + StringBlock(p, slotCount, StringOperand(e.left, e.right), width, |st.literals|))
  }

  ghost predicate Extends(r: Tables, st: Tables, nodes: nat, literals: nat) {
    && st.nodes <= r.nodes && |r.nodes| == |st.nodes| + nodes
    && st.literals <= r.literals && |r.literals| == |st.literals| + literals
  }

  /** The walk only extends the tables, by exactly the node and literal counts of
      the tree, and it keeps literal ids consecutive. */
  lemma {:induction false} WalkExtends(p: OddPrime, slotCount: nat, e: Expr, schema: TableSchema, st: Tables)
    requires Compilable(e, schema)
    ensures Extends(After(p, slotCount, e, schema, st), st, NodeCount(e), LiteralCount(e, schema))
    ensures Numbered(st.literals) ==> Numbered(After(p, slotCount, e, schema, st).literals)
  {
    if IsBinary(e) {
      WalkExtends(p, slotCount, e.left, schema, st);
      WalkExtends(p, slotCount, e.right, schema, After(p, slotCount, e.left, schema, st));
    } else if e.Not? {
      WalkExtends(p, slotCount, e.left, schema, st);
    }
  }

  /** Children come before their parents. */
  ghost predicate Backward(nodes: seq<PredNode>) {
    forall i :: 0 <= i < |nodes| ==>
      && (nodes[i].left == UINT32_MAX || nodes[i].left < i)
      && (nodes[i].right == UINT32_MAX || nodes[i].right < i)
  }

  lemma ParentBackward(kind: PredNodeKind, left: Tables, both: Tables)
    requires 0 < |left.nodes| <= |both.nodes| < UINT32_MAX && Backward(both.nodes)
    ensures Backward(WithParent(kind, left, both).nodes)
  {
  }

  lemma {:induction false} WalkBackward(p: OddPrime, slotCount: nat, e: Expr, schema: TableSchema, st: Tables)
    requires Compilable(e, schema) && Backward(st.nodes)
    requires |After(p, slotCount, e, schema, st).nodes| <= UINT32_MAX
    ensures Backward(After(p, slotCount, e, schema, st).nodes)
  {
    if IsBinary(e) {
      var left := After(p, slotCount, e.left, schema, st);
      var both := After(p, slotCount, e.right, schema, left);
      WalkExtends(p, slotCount, e.right, schema, left);
      WalkBackward(p, slotCount, e.left, schema, st);
      WalkBackward(p, slotCount, e.right, schema, left);
      ParentBackward(BinaryKind(e), left, both);
    } else if e.Not? {
      WalkBackward(p, slotCount, e.left, schema, st);
    }
  }

  /** The node array, the literal table and the id counter that the recursive
      walk receives by reference. */
  class PredicateBuilder {
    const p: OddPrime
    const slotCount: nat
    var nodes: seq<PredNode>
    var literals: seq<LiteralEntry>
    var nextLiteralId: uint32

    constructor (p: OddPrime, slotCount: nat)
      ensures Valid() && nodes == [] && literals == []
      ensures this.p == p && this.slotCount == slotCount
    {
      this.p, this.slotCount := p, slotCount;
      nodes, literals, nextLiteralId := [], [], 0;
    }

    /** The id counter is the number of literals, wrapped to 32 bits. */
    ghost predicate Valid()
      reads this
    {
      nextLiteralId == ToU32(|literals|)
    }

    method AddEncryptedString(value: string, maxLength: nat) returns (firstId: uint32)
      requires Valid()
      modifies this`literals, this`nextLiteralId
      ensures Valid()
      ensures firstId == ToU32(|old(literals)|)
      ensures literals == old(literals) + StringBlock(p, slotCount, value, maxLength, |old(literals)|)
    {
      firstId := nextLiteralId;
      ghost var before := literals;
      ghost var block := StringBlock(p, slotCount, value, maxLength, |before|);
      for position := 0 to maxLength
        invariant Valid()
        invariant literals == before + block[..position]
      {
        var code := if position < |value| then Code(value[position]) else 0;
        WrapIncrement(|literals|, 1);
        literals := literals + [LiteralEntry(nextLiteralId, "STRING_CHAR",
                                             Serialized(EncryptScalar(p, slotCount, code)))];
        nextLiteralId := ToU32(nextLiteralId + 1);
        assert block[..position + 1] == block[..position] + [block[position]];
      }
    }

    ghost function State(): Tables
      reads this
    {
      Tables(nodes, literals)
    }

    /** Succeeds exactly on compilable trees; then it has walked the tree and returns the index
        of its root, the last node. */
    method BuildPredNode(e: Expr, schema: TableSchema) returns (r: Result<uint32>)
      requires Valid()
      modifies this`nodes, this`literals, this`nextLiteralId
      ensures r.Ok? <==> Compilable(e, schema)
      ensures r.Ok? ==> Valid() && State() == After(p, slotCount, e, schema, old(State()))
      ensures r.Ok? ==> nodes != [] && r.value == ToU32(|nodes| - 1)
      decreases e, 1
    {
      match e {
        case ColumnRef(name) =>
          nodes := nodes + [BLANK_NODE.(columnName := name)];
          assert literals + [] == literals;
          r := Ok(ToU32(|nodes| - 1));
        case IntLiteral(v) =>
          r := BuildInt(v);
        case StringLiteral(_) =>
          r := Err(StrayStringLiteral);
        case Compare(op, left, right) =>
          if IsStringComparison(left, right) {
            r := BuildStringComparison(op, left, right, schema);
          } else {
            r := BuildBinary(e, schema);
          }
        case And(left, right) =>
          r := BuildBinary(e, schema);
        case Or(left, right) =>
          r := BuildBinary(e, schema);
        case Not(left) =>
          var l :- BuildPredNode(left, schema);
          nodes := nodes + [BLANK_NODE.(kind := NotNode, left := l)];
          r := Ok(ToU32(|nodes| - 1));
      }
    }

    method BuildInt(v: int) returns (r: Result<uint32>)
      requires Valid()
      modifies this`nodes, this`literals, this`nextLiteralId
      ensures Valid()
      ensures nodes == old(nodes) + [BLANK_NODE.(kind := LiteralNode, literalId := ToU32(|old(literals)|))]
      ensures literals == old(literals) + [EncryptEntry(p, slotCount, |old(literals)|, "INT64", v)]
      ensures r == Ok(ToU32(|nodes| - 1))
    {
      var entry := LiteralEntry(nextLiteralId, "INT64", Serialized(EncryptScalar(p, slotCount, v)));
      WrapIncrement(|literals|, 1);
      nextLiteralId := ToU32(nextLiteralId + 1);
      literals := literals + [entry];
      nodes := nodes + [BLANK_NODE.(kind := LiteralNode, literalId := entry.id)];
      r := Ok(ToU32(|nodes| - 1));
    }

    method BuildStringComparison(op: CmpOp, left: Expr, right: Expr, schema: TableSchema) returns (r: Result<uint32>)
      requires Valid() && IsStringComparison(left, right)
      modifies this`nodes, this`literals, this`nextLiteralId
      ensures r.Ok? <==> Compilable(Compare(op, left, right), schema)
      ensures r.Ok? ==> Valid() && State() == After(p, slotCount, Compare(op, left, right), schema, old(State()))
      ensures r.Ok? ==> nodes != [] && r.value == ToU32(|nodes| - 1)
    {
      var column := StringColumn(left, right);
      if !schema.HasColumn(BareName(column)) {
        return Err(ColumnNotFound);
      }
      var columnSchema := schema.Column(BareName(column));
      var firstId := AddEncryptedString(StringOperand(left, right), columnSchema.maxLength);
      nodes := nodes + [BLANK_NODE.(kind := if op == Equal then StringEqualNode else StringNotEqualNode,
                                   columnName := column, literalId := firstId,
                                   stringWidth := ToU32(columnSchema.maxLength))];
      r := Ok(ToU32(|nodes| - 1));
    }

    /** The shared tail of the comparison, AND and OR cases. */
    method BuildBinary(e: Expr, schema: TableSchema) returns (r: Result<uint32>)
      requires Valid() && IsBinary(e)
      modifies this`nodes, this`literals, this`nextLiteralId
      ensures r.Ok? <==> Compilable(e, schema)
      ensures r.Ok? ==> Valid() && State() == After(p, slotCount, e, schema, old(State()))
      ensures r.Ok? ==> nodes != [] && r.value == ToU32(|nodes| - 1)
      decreases e, 0
    {
      var l :- BuildPredNode(e.left, schema);
      ghost var afterLeft := State();
      var rr :- BuildPredNode(e.right, schema);
      ghost var afterBoth := State();
      nodes := nodes + [BLANK_NODE.(kind := BinaryKind(e), left := l, right := rr)];
      assert State() == WithParent(BinaryKind(e), afterLeft, afterBoth);
      r := Ok(ToU32(|nodes| - 1));
    }
  }
}
