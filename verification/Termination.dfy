// Rebuilding and validating recurse along indices. How much of the stack they take:
// on packages whose children come before their parents, no more than the index;
// on a cycle no stack is enough.

module Termination {
  import opened Common
  import opened Catalog
  import opened Ast
  import opened PrimeField
  import opened Circuit
  import opened Package
  import opened Encryptor
  import opened Rebuild
  import opened Compiler
  import opened Validator

  predicate Exhausted<T>(r: Result<T>) { r == Err(StackExhausted) }

  // ---- A larger stack changes nothing but exhaustion ----

  lemma LiteralNotExhausted(literals: seq<LiteralEntry>, id: uint32)
    ensures !Exhausted(LiteralCircuit(literals, id)) && !Exhausted(LiteralCiphertext(literals, id))
  {
  }

  lemma {:induction false} PositionsNotExhausted(literals: seq<LiteralEntry>, node: PredNode, k: nat)
    ensures !Exhausted(PositionTests(literals, node, k))
  {
    if k > 0 {
      PositionsNotExhausted(literals, node, k - 1);
      LiteralNotExhausted(literals, ToU32(node.literalId + k - 1));
    }
  }

  lemma StringNotExhausted(literals: seq<LiteralEntry>, node: PredNode)
    ensures !Exhausted(StringCircuit(literals, node))
  {
    PositionsNotExhausted(literals, node, node.stringWidth);
  }

  predicate IsLeafNode(node: PredNode) {
    || node.kind == ColumnNode || node.kind == LiteralNode
    || node.kind == StringEqualNode || node.kind == StringNotEqualNode
  }

  lemma LeafNotExhausted(pkg: QueryPackage, idx: uint32, s: nat, t: nat)
    requires s > 0 && t > 0 && (idx < |pkg.predicateNodes| ==> IsLeafNode(pkg.predicateNodes[idx]))
    ensures RebuildNode(pkg, idx, s) == RebuildNode(pkg, idx, t) && !Exhausted(RebuildNode(pkg, idx, s))
  {
    if idx < |pkg.predicateNodes| {
      LiteralNotExhausted(pkg.encryptedLiterals, pkg.predicateNodes[idx].literalId);
      StringNotExhausted(pkg.encryptedLiterals, pkg.predicateNodes[idx]);
    }
  }

  predicate IsInner(pkg: QueryPackage, idx: uint32) {
    idx < |pkg.predicateNodes| && !IsLeafNode(pkg.predicateNodes[idx])
  }

  lemma InnerRebuild(pkg: QueryPackage, idx: uint32, s: nat)
    requires s > 0 && IsInner(pkg, idx)
    ensures
      var node := pkg.predicateNodes[idx];
      RebuildNode(pkg, idx, s) ==
      if node.kind == NotNode then LiftNot(RebuildNode(pkg, node.left, s - 1))
      else Lift(node.kind, RebuildNode(pkg, node.left, s - 1), RebuildNode(pkg, node.right, s - 1))
  {
  }

  lemma LiftsAlike(kind: PredNodeKind, l: Result<Circuit>, r: Result<Circuit>, l': Result<Circuit>, r': Result<Circuit>)
    requires (!Exhausted(l) ==> l' == l) && (!Exhausted(r) ==> r' == r)
    ensures !Exhausted(LiftNot(l)) ==> LiftNot(l') == LiftNot(l)
    ensures !Exhausted(Lift(kind, l, r)) ==> Lift(kind, l', r') == Lift(kind, l, r)
  {
  }

  predicate Settled(pkg: QueryPackage, idx: uint32, s: nat, t: nat) {
    !Exhausted(RebuildNode(pkg, idx, s)) ==> RebuildNode(pkg, idx, t) == RebuildNode(pkg, idx, s)
  }

  lemma InnerSettled(pkg: QueryPackage, idx: uint32, s: nat, t: nat)
    requires 0 < s <= t && IsInner(pkg, idx)
    requires Settled(pkg, pkg.predicateNodes[idx].left, s - 1, t - 1)
    requires Settled(pkg, pkg.predicateNodes[idx].right, s - 1, t - 1)
    ensures Settled(pkg, idx, s, t)
  {
    var node := pkg.predicateNodes[idx];
    InnerRebuild(pkg, idx, s);
    InnerRebuild(pkg, idx, t);
    LiftsAlike(node.kind, RebuildNode(pkg, node.left, s - 1), RebuildNode(pkg, node.right, s - 1),
               RebuildNode(pkg, node.left, t - 1), RebuildNode(pkg, node.right, t - 1));
  }

  /** Whatever the package: a rebuild that does not run out of stack has the same
      outcome with every larger one. */
  lemma {:induction false} LargerStack(pkg: QueryPackage, idx: uint32, s: nat, t: nat)
    requires s <= t
    ensures !Exhausted(RebuildNode(pkg, idx, s)) ==> RebuildNode(pkg, idx, t) == RebuildNode(pkg, idx, s)
    decreases s
  {
    if s > 0 {
      if IsInner(pkg, idx) {
        LargerStack(pkg, pkg.predicateNodes[idx].left, s - 1, t - 1);
        LargerStack(pkg, pkg.predicateNodes[idx].right, s - 1, t - 1);
        InnerSettled(pkg, idx, s, t);
      } else {
        LeafNotExhausted(pkg, idx, s, t);
      }
    }
  }

  // ---- Packages whose children come first ----

  ghost predicate BackwardPackage(pkg: QueryPackage) {
    Backward(pkg.predicateNodes) && |pkg.predicateNodes| <= UINT32_MAX
  }

  /** Stack that is enough at an index. */
  function Room(pkg: QueryPackage, idx: uint32): nat {
    if idx < |pkg.predicateNodes| then idx + 1 else 0
  }

  lemma ChildRoom(pkg: QueryPackage, idx: uint32)
    requires BackwardPackage(pkg) && IsInner(pkg, idx)
    ensures Room(pkg, pkg.predicateNodes[idx].left) < Room(pkg, idx)
    ensures Room(pkg, pkg.predicateNodes[idx].right) < Room(pkg, idx)
  {
  }

  lemma {:induction false} BackwardNotExhausted(pkg: QueryPackage, idx: uint32, s: nat)
    requires BackwardPackage(pkg) && s > Room(pkg, idx)
    ensures !Exhausted(RebuildNode(pkg, idx, s))
    decreases s
  {
    if !IsInner(pkg, idx) {
      LeafNotExhausted(pkg, idx, s, s);
    } else {
      ChildRoom(pkg, idx);
      InnerRebuild(pkg, idx, s);
      BackwardNotExhausted(pkg, pkg.predicateNodes[idx].left, s - 1);
      BackwardNotExhausted(pkg, pkg.predicateNodes[idx].right, s - 1);
    }
  }

  /** Rebuilding a package whose children come first terminates: any stack larger than
      the index plus one is enough, and its size does not matter. */
  lemma BackwardTerminates(pkg: QueryPackage, idx: uint32, s: nat, t: nat)
    requires BackwardPackage(pkg) && s > Room(pkg, idx) && t > Room(pkg, idx)
    ensures RebuildNode(pkg, idx, s) == RebuildNode(pkg, idx, t) && !Exhausted(RebuildNode(pkg, idx, s))
  {
    BackwardNotExhausted(pkg, idx, s);
    BackwardNotExhausted(pkg, idx, t);
    if s <= t {
      LargerStack(pkg, idx, s, t);
    } else {
      LargerStack(pkg, idx, t, s);
    }
  }

  lemma {:induction false} AcceptedAtRoom(pkg: QueryPackage, tables: TableMap, idx: uint32, s: nat, t: nat)
    requires BackwardPackage(pkg) && pkg.tableName in tables && t > Room(pkg, idx)
    requires TreeAccepted(pkg, tables, idx, s)
    ensures TreeAccepted(pkg, tables, idx, t)
    decreases s
  {
    if IsInner(pkg, idx) {
      var node := pkg.predicateNodes[idx];
      ChildRoom(pkg, idx);
      AcceptedAtRoom(pkg, tables, node.left, s - 1, t - 1);
      if node.kind != NotNode {
        AcceptedAtRoom(pkg, tables, node.right, s - 1, t - 1);
      }
    }
  }

  /** So does validating. */
  lemma BackwardValidates(pkg: QueryPackage, tables: TableMap, idx: uint32, s: nat, t: nat)
    requires BackwardPackage(pkg) && pkg.tableName in tables && s > Room(pkg, idx) && t > Room(pkg, idx)
    ensures TreeAccepted(pkg, tables, idx, s) <==> TreeAccepted(pkg, tables, idx, t)
  {
    if TreeAccepted(pkg, tables, idx, s) {
      AcceptedAtRoom(pkg, tables, idx, s, t);
    }
    if TreeAccepted(pkg, tables, idx, t) {
      AcceptedAtRoom(pkg, tables, idx, t, s);
    }
  }

  /** The validator's soundness without a stack: if some stack let the validator
      accept a package whose children come first, rebuilding succeeds with every stack
      that is enough, and reads known columns only. */
  lemma BackwardSound(pkg: QueryPackage, tables: TableMap, idx: uint32, s: nat, t: nat)
    requires BackwardPackage(pkg) && pkg.tableName in tables && NoEmptyLiteral(pkg.encryptedLiterals)
    requires TreeAccepted(pkg, tables, idx, s) && t > Room(pkg, idx)
    ensures RebuildNode(pkg, idx, t).Ok? && ReadsKnownColumns(RebuildNode(pkg, idx, t).value, pkg, tables)
  {
    AcceptedAtRoom(pkg, tables, idx, s, t);
    ValidatorSound(pkg, tables, idx, t);
  }

  /** The encryptor's packages are of this kind. */
  lemma CarriedBackward(p: OddPrime, slotCount: nat, e: Expr, schema: TableSchema, pkg: QueryPackage)
    requires Compilable(e, schema) && CarriesPredicate(p, slotCount, e, schema, pkg)
    ensures BackwardPackage(pkg)
  {
    WalkExtends(p, slotCount, e, schema, NO_TABLES);
    WalkBackward(p, slotCount, e, schema, NO_TABLES);
  }

  // ---- Cycles ----

  /** Nodes each of which leads to another one of them, by either link. */
  ghost predicate Cyclic(pkg: QueryPackage, cycle: set<uint32>) {
    forall idx :: idx in cycle ==>
      && IsInner(pkg, idx)
      && var node := pkg.predicateNodes[idx];
      node.left in cycle || (node.kind != NotNode && node.right in cycle)
  }

  /** On a cycle rebuilding fails and validation rejects, whatever the stack. */
  lemma {:induction false} CycleFails(pkg: QueryPackage, tables: TableMap, cycle: set<uint32>, idx: uint32, stack: nat)
    requires pkg.tableName in tables && Cyclic(pkg, cycle) && idx in cycle
    ensures RebuildNode(pkg, idx, stack).Err? && !TreeAccepted(pkg, tables, idx, stack)
    decreases stack
  {
    if stack > 0 {
      var node := pkg.predicateNodes[idx];
      InnerRebuild(pkg, idx, stack);
      if node.left in cycle {
        CycleFails(pkg, tables, cycle, node.left, stack - 1);
      } else {
        CycleFails(pkg, tables, cycle, node.right, stack - 1);
      }
    }
  }

  /** A cycle of left links. */
  ghost predicate LeftCyclic(pkg: QueryPackage, cycle: set<uint32>) {
    forall idx :: idx in cycle ==> IsInner(pkg, idx) && pkg.predicateNodes[idx].left in cycle
  }

  /** There the failure is always the stack running out: the right operands are not
      reached. */
  lemma {:induction false} LeftCycleExhausts(pkg: QueryPackage, cycle: set<uint32>, idx: uint32, stack: nat)
    requires LeftCyclic(pkg, cycle) && idx in cycle
    ensures Exhausted(RebuildNode(pkg, idx, stack))
    decreases stack
  {
    if stack > 0 {
      LeftCycleExhausts(pkg, cycle, pkg.predicateNodes[idx].left, stack - 1);
      InnerRebuild(pkg, idx, stack);
    }
  }

  /** A NOT node that points at itself is such a package. */
  lemma SelfNegation(pkg: QueryPackage, tables: TableMap, stack: nat)
    requires pkg.tableName in tables && pkg.predicateNodes == [BLANK_NODE.(kind := NotNode, left := 0)]
    ensures Exhausted(RebuildNode(pkg, 0, stack)) && !TreeAccepted(pkg, tables, 0, stack)
  {
    CycleFails(pkg, tables, {0}, 0, stack);
    LeftCycleExhausts(pkg, {0}, 0, stack);
  }
}
