// The two tables the predicate walk writes, read off the tree: which literals in which
// order, and which fields each kind of node uses.

module Linearised {
  import opened Common
  import opened Catalog
  import opened Ast
  import opened PrimeField
  import opened Circuit
  import opened Package
  import opened Encryptor

  // ---- Literals ----

  /** A literal of the tree as it is encrypted: its label and its value. */
  datatype Leaf = Leaf(logicalType: string, value: int)

  /** The characters of a string, zero padded to the width of its column. */
  function Characters(text: string, width: nat): seq<Leaf> {
    seq(width, k => Leaf("STRING_CHAR", if 0 <= k < |text| then text[k] as int else 0))
  }

  function WidthOf(schema: TableSchema, column: string): nat {
    match FirstColumn(schema.columns, BareName(column))
    case None => 0
    case Some(c) => c.maxLength
  }

  /** The literals from left to right; a string next to a column is one literal a
      character, on either side of the operator. */
  function Leaves(e: Expr, schema: TableSchema): seq<Leaf> {
    match e
    case ColumnRef(_) => []
    case IntLiteral(v) => [Leaf("INT64", v)]
    case StringLiteral(_) => []
    case Compare(_, ColumnRef(c), StringLiteral(t)) => Characters(t, WidthOf(schema, c))
    case Compare(_, StringLiteral(t), ColumnRef(c)) => Characters(t, WidthOf(schema, c))
    case Compare(_, l, r) => Leaves(l, schema) + Leaves(r, schema)
    case And(l, r) => Leaves(l, schema) + Leaves(r, schema)
    case Or(l, r) => Leaves(l, schema) + Leaves(r, schema)
    case Not(l) => Leaves(l, schema)
  }

  /** Numbered entries, each the encryption of its value in every slot. */
  function Entries(p: OddPrime, slotCount: nat, leaves: seq<Leaf>, first: nat): seq<LiteralEntry> {
    seq(|leaves|, k requires 0 <= k < |leaves| =>
      LiteralEntry((first + k) % 0x1_0000_0000, leaves[k].logicalType,
                   Serialized(Sealed(seq(slotCount, _ => leaves[k].value % p)))))
  }

  lemma EntriesJoin(p: OddPrime, slotCount: nat, a: seq<Leaf>, b: seq<Leaf>, first: nat)
    ensures Entries(p, slotCount, a + b, first) ==
      Entries(p, slotCount, a, first) + Entries(p, slotCount, b, first + |a|)
  {
  }

  predicate Writes(p: OddPrime, slotCount: nat, before: Tables, leaves: seq<Leaf>, after: Tables) {
    after.literals == before.literals + Entries(p, slotCount, leaves, |before.literals|)
  }

  lemma WritesTwice(p: OddPrime, slotCount: nat, a: Tables, x: seq<Leaf>, b: Tables, y: seq<Leaf>, c: Tables)
    requires Writes(p, slotCount, a, x, b) && Writes(p, slotCount, b, y, c)
    ensures Writes(p, slotCount, a, x + y, c)
  {
    EntriesJoin(p, slotCount, x, y, |a.literals|);
  }

  lemma IntWritten(p: OddPrime, slotCount: nat, v: int, schema: TableSchema, st: Tables)
    ensures Writes(p, slotCount, st, [Leaf("INT64", v)], After(p, slotCount, IntLiteral(v), schema, st))
  {
    assert Entries(p, slotCount, [Leaf("INT64", v)], |st.literals|) ==
      [EncryptEntry(p, slotCount, |st.literals|, "INT64", v)];
  }

  lemma StringWritten(p: OddPrime, slotCount: nat, text: string, width: nat, first: nat)
    ensures StringBlock(p, slotCount, text, width, first) == Entries(p, slotCount, Characters(text, width), first)
  {
    forall k | 0 <= k < width
      ensures StringBlock(p, slotCount, text, width, first)[k] ==
        Entries(p, slotCount, Characters(text, width), first)[k]
    {
    }
  }

  lemma StringCompareWritten(p: OddPrime, slotCount: nat, e: Expr, schema: TableSchema, st: Tables)
    requires e.Compare? && IsStringComparison(e.left, e.right) && Compilable(e, schema)
    ensures Writes(p, slotCount, st, Leaves(e, schema), After(p, slotCount, e, schema, st))
  {
    StringWritten(p, slotCount, StringOperand(e.left, e.right), StringWidth(e.left, e.right, schema), |st.literals|);
  }

  lemma PairLeaves(e: Expr, schema: TableSchema)
    requires IsBinary(e)
    ensures Leaves(e, schema) == Leaves(e.left, schema) + Leaves(e.right, schema)
  {
  }

  /** The literal table of a predicate holds its literals from left to right. */
  lemma {:induction false} LiteralsExactly(p: OddPrime, slotCount: nat, e: Expr, schema: TableSchema, st: Tables)
    requires Compilable(e, schema)
    ensures Writes(p, slotCount, st, Leaves(e, schema), After(p, slotCount, e, schema, st))
  {
    if IsBinary(e) {
      var left := After(p, slotCount, e.left, schema, st);
      LiteralsExactly(p, slotCount, e.left, schema, st);
      LiteralsExactly(p, slotCount, e.right, schema, left);
      PairLeaves(e, schema);
      WritesTwice(p, slotCount, st, Leaves(e.left, schema), left, Leaves(e.right, schema),
                  After(p, slotCount, e, schema, st));
    } else if e.Not? {
      LiteralsExactly(p, slotCount, e.left, schema, st);
    } else if e.ColumnRef? {
      assert Entries(p, slotCount, [], |st.literals|) == [];
    } else if e.IntLiteral? {
      IntWritten(p, slotCount, e.intValue, schema, st);
    } else {
      StringCompareWritten(p, slotCount, e, schema, st);
    }
  }

  // ---- Nodes ----

  const NO_NODE: uint32 := 0xFFFF_FFFF

  /** The fields a node of its kind does not use are left as they are in a new node. */
  predicate Tidy(node: PredNode) {
    match node.kind
    case ColumnNode => node == PredNode(ColumnNode, node.columnName, 0, 0, NO_NODE, NO_NODE)
    case LiteralNode => node == PredNode(LiteralNode, "", node.literalId, 0, NO_NODE, NO_NODE)
    case StringEqualNode =>
      node == PredNode(StringEqualNode, node.columnName, node.literalId, node.stringWidth, NO_NODE, NO_NODE)
    case StringNotEqualNode =>
      node == PredNode(StringNotEqualNode, node.columnName, node.literalId, node.stringWidth, NO_NODE, NO_NODE)
    case NotNode => node == PredNode(NotNode, "", 0, 0, node.left, NO_NODE)
    case _ => node == PredNode(node.kind, "", 0, 0, node.left, node.right)
  }

  predicate AllTidy(nodes: seq<PredNode>) { forall k :: 0 <= k < |nodes| ==> Tidy(nodes[k]) }

  lemma BinaryTidy(e: Expr, left: Tables, both: Tables)
    requires IsBinary(e) && left.nodes != [] && both.nodes != [] && AllTidy(both.nodes)
    ensures AllTidy(WithParent(BinaryKind(e), left, both).nodes)
  {
    var kind := BinaryKind(e);
    assert kind != ColumnNode && kind != LiteralNode && kind != NotNode;
  }

  lemma {:induction false} NodesTidy(p: OddPrime, slotCount: nat, e: Expr, schema: TableSchema, st: Tables)
    requires Compilable(e, schema) && AllTidy(st.nodes)
    ensures AllTidy(After(p, slotCount, e, schema, st).nodes)
  {
    if IsBinary(e) {
      var left := After(p, slotCount, e.left, schema, st);
      NodesTidy(p, slotCount, e.left, schema, st);
      NodesTidy(p, slotCount, e.right, schema, left);
      BinaryTidy(e, left, After(p, slotCount, e.right, schema, left));
    } else if e.Not? {
      NodesTidy(p, slotCount, e.left, schema, st);
    }
  }
}
