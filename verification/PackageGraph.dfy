// What the server requires of any received package, told by walks along its child
// links instead of recursion.

module PackageGraph {
  import opened Common
  import opened Catalog
  import opened Package
  import opened Rebuild
  import opened Validator

  // ---- Walks ----

  predicate IsLeafKind(kind: PredNodeKind) {
    kind == ColumnNode || kind == LiteralNode || kind == StringEqualNode || kind == StringNotEqualNode
  }

  /** Where a walk from a node ends: each step takes the left link, or the right one of
      a node with two operands. */
  function Walk(pkg: QueryPackage, idx: uint32, path: seq<bool>): Option<uint32>
    decreases |path|
  {
    if path == [] then Some(idx)
    else if idx >= |pkg.predicateNodes| then None
    else
      var node := pkg.predicateNodes[idx];
      if IsLeafKind(node.kind) || (path[0] && node.kind == NotNode) then None
      else Walk(pkg, if path[0] then node.right else node.left, path[1..])
  }

  ghost predicate Everywhere(pkg: QueryPackage, idx: uint32, stack: nat, good: set<uint32>) {
    forall path :: Walk(pkg, idx, path).Some? ==> |path| < stack && Walk(pkg, idx, path).value in good
  }

  lemma WalkStep(pkg: QueryPackage, idx: uint32, right: bool, path: seq<bool>)
    requires idx < |pkg.predicateNodes| && !IsLeafKind(pkg.predicateNodes[idx].kind)
    requires right ==> pkg.predicateNodes[idx].kind != NotNode
    ensures
      var node := pkg.predicateNodes[idx];
      Walk(pkg, idx, [right] + path) == Walk(pkg, if right then node.right else node.left, path)
  {
    assert ([right] + path)[1..] == path;
  }

  lemma EverywhereBelow(pkg: QueryPackage, idx: uint32, right: bool, stack: nat, good: set<uint32>)
    requires stack > 0 && Everywhere(pkg, idx, stack, good)
    requires idx < |pkg.predicateNodes| && !IsLeafKind(pkg.predicateNodes[idx].kind)
    requires right ==> pkg.predicateNodes[idx].kind != NotNode
    ensures
      var node := pkg.predicateNodes[idx];
      Everywhere(pkg, if right then node.right else node.left, stack - 1, good)
  {
    var child := if right then pkg.predicateNodes[idx].right else pkg.predicateNodes[idx].left;
    forall path | Walk(pkg, child, path).Some?
      ensures |path| < stack - 1 && Walk(pkg, child, path).value in good
    {
      WalkStep(pkg, idx, right, path);
      assert Walk(pkg, idx, [right] + path).Some?;
    }
  }

  /** A node and its children give all the walks. */
  lemma EverywhereParts(pkg: QueryPackage, idx: uint32, stack: nat, good: set<uint32>)
    requires stack > 0 && idx in good && idx < |pkg.predicateNodes|
    requires
      var node := pkg.predicateNodes[idx];
      !IsLeafKind(node.kind) ==>
        && Everywhere(pkg, node.left, stack - 1, good)
        && (node.kind != NotNode ==> Everywhere(pkg, node.right, stack - 1, good))
    ensures Everywhere(pkg, idx, stack, good)
  {
    var node := pkg.predicateNodes[idx];
    forall path | Walk(pkg, idx, path).Some?
      ensures |path| < stack && Walk(pkg, idx, path).value in good
    {
      if path != [] {
        var child := if path[0] then node.right else node.left;
        assert Walk(pkg, child, path[1..]).Some?;
      }
    }
  }

  lemma EverywhereHere(pkg: QueryPackage, idx: uint32, stack: nat, good: set<uint32>)
    requires Everywhere(pkg, idx, stack, good)
    ensures stack > 0 && idx in good
  {
    assert Walk(pkg, idx, []) == Some(idx);
  }

  // ---- The validator ----

  predicate HasEntry(literals: seq<LiteralEntry>, id: int) {
    exists i :: 0 <= i < |literals| && literals[i].id == id
  }

  predicate IsCharacter(entry: LiteralEntry, id: int) {
    entry.id == id && entry.logicalType == "STRING_CHAR" && entry.bytes.Serialized?
  }

  /** The literal block of a string node, whose ids wrap around at 32 bits, holds
      position k. */
  predicate HasCharacterAt(literals: seq<LiteralEntry>, node: PredNode, k: nat) {
    exists i :: 0 <= i < |literals| && IsCharacter(literals[i], (node.literalId + k) % 0x1_0000_0000)
  }

  /** A column of the main table or, under its alias, of the joined one. */
  predicate KnowsColumn(pkg: QueryPackage, tables: TableMap, name: string)
    requires pkg.tableName in tables
  {
    if pkg.hasJoin && (if Qualified(name) then AliasPart(name) else pkg.tableAlias) == pkg.joinedTableAlias then
      pkg.joinedTableName in tables && tables[pkg.joinedTableName].HasColumn(BareName(name))
    else tables[pkg.tableName].HasColumn(BareName(name))
  }

  /** The checks of one node. */
  predicate NodePasses(pkg: QueryPackage, tables: TableMap, idx: uint32)
    requires pkg.tableName in tables
  {
    && idx < |pkg.predicateNodes|
    && var node := pkg.predicateNodes[idx];
    if node.kind == ColumnNode then KnowsColumn(pkg, tables, node.columnName)
    else if node.kind == LiteralNode then HasEntry(pkg.encryptedLiterals, node.literalId)
    else if node.kind == StringEqualNode || node.kind == StringNotEqualNode then
      var main := tables[pkg.tableName];
      && node.columnName != "" && node.stringWidth != 0
      && main.HasColumn(node.columnName) && main.Column(node.columnName).kind == STRING
      && main.Column(node.columnName).maxLength == node.stringWidth
      && forall k :: 0 <= k < node.stringWidth ==> HasCharacterAt(pkg.encryptedLiterals, node, k)
    else node.left != UINT32_MAX && (node.kind == NotNode || node.right != UINT32_MAX)
  }

  lemma StringPasses(pkg: QueryPackage, tables: TableMap, idx: uint32)
    requires pkg.tableName in tables && idx < |pkg.predicateNodes|
    requires
      var kind := pkg.predicateNodes[idx].kind;
      kind == StringEqualNode || kind == StringNotEqualNode
    ensures NodePasses(pkg, tables, idx) <==>
      StringNodeAccepted(pkg, tables[pkg.tableName], pkg.predicateNodes[idx])
  {
    var node := pkg.predicateNodes[idx];
    forall k | 0 <= k < node.stringWidth
      ensures HasCharacterAt(pkg.encryptedLiterals, node, k) <==> HasPosition(pkg.encryptedLiterals, node, k)
    {
      CharacterEntry(pkg.encryptedLiterals, node, k);
    }
  }

  lemma CharacterEntry(literals: seq<LiteralEntry>, node: PredNode, k: nat)
    ensures HasCharacterAt(literals, node, k) <==> HasPosition(literals, node, k)
  {
    var id := ToU32(node.literalId + k);
    assert forall i :: 0 <= i < |literals| ==> (CharEntry(literals[i], id) <==> IsCharacter(literals[i], id));
  }

  lemma EntryFound(literals: seq<LiteralEntry>, id: uint32)
    ensures HasEntry(literals, id) <==> FirstLiteral(literals, id).Some?
  {
  }

  /** What one node and its children's verdicts say. */
  lemma AcceptedHere(pkg: QueryPackage, tables: TableMap, idx: uint32, stack: nat)
    requires pkg.tableName in tables && stack > 0
    ensures TreeAccepted(pkg, tables, idx, stack) <==>
      && NodePasses(pkg, tables, idx)
      && var node := pkg.predicateNodes[idx];
      !IsLeafKind(node.kind) ==>
        && TreeAccepted(pkg, tables, node.left, stack - 1)
        && (node.kind != NotNode ==> TreeAccepted(pkg, tables, node.right, stack - 1))
  {
    if idx < |pkg.predicateNodes| {
      var node := pkg.predicateNodes[idx];
      if node.kind == LiteralNode {
        EntryFound(pkg.encryptedLiterals, node.literalId);
      } else if node.kind == StringEqualNode || node.kind == StringNotEqualNode {
        StringPasses(pkg, tables, idx);
      }
    }
  }

  function Passing(pkg: QueryPackage, tables: TableMap): set<uint32>
    requires pkg.tableName in tables
  {
    set i: uint32 | i < |pkg.predicateNodes| && NodePasses(pkg, tables, i)
  }

  /** Validation accepts a node iff every walk from it fits the stack and ends at a node
      that passes its checks. */
  lemma {:induction false} TreeExactly(pkg: QueryPackage, tables: TableMap, idx: uint32, stack: nat)
    requires pkg.tableName in tables
    ensures TreeAccepted(pkg, tables, idx, stack) <==> Everywhere(pkg, idx, stack, Passing(pkg, tables))
    decreases stack
  {
    var good := Passing(pkg, tables);
    if stack == 0 {
      assert Walk(pkg, idx, []) == Some(idx);
    } else {
      AcceptedHere(pkg, tables, idx, stack);
      if NodePasses(pkg, tables, idx) && !IsLeafKind(pkg.predicateNodes[idx].kind) {
        var node := pkg.predicateNodes[idx];
        TreeExactly(pkg, tables, node.left, stack - 1);
        if node.kind != NotNode {
          TreeExactly(pkg, tables, node.right, stack - 1);
        }
      }
      EverywhereIff(pkg, idx, stack, good);
    }
  }

  /** Walks from a node, by its first step. */
  lemma EverywhereIff(pkg: QueryPackage, idx: uint32, stack: nat, good: set<uint32>)
    requires stack > 0 && forall i :: i in good ==> i < |pkg.predicateNodes|
    ensures Everywhere(pkg, idx, stack, good) <==>
      && idx in good
      && var node := pkg.predicateNodes[idx];
      !IsLeafKind(node.kind) ==>
        && Everywhere(pkg, node.left, stack - 1, good)
        && (node.kind != NotNode ==> Everywhere(pkg, node.right, stack - 1, good))
  {
    if Everywhere(pkg, idx, stack, good) {
      EverywhereHere(pkg, idx, stack, good);
      if !IsLeafKind(pkg.predicateNodes[idx].kind) {
        EverywhereBelow(pkg, idx, false, stack, good);
        if pkg.predicateNodes[idx].kind != NotNode {
          EverywhereBelow(pkg, idx, true, stack, good);
        }
      }
    }
    if
      && idx in good
      && (!IsLeafKind(pkg.predicateNodes[idx].kind) ==>
            && Everywhere(pkg, pkg.predicateNodes[idx].left, stack - 1, good)
            && (pkg.predicateNodes[idx].kind != NotNode ==>
                  Everywhere(pkg, pkg.predicateNodes[idx].right, stack - 1, good)))
    {
      EverywhereParts(pkg, idx, stack, good);
    }
  }

  lemma ColumnKnown(pkg: QueryPackage, tables: TableMap, name: string)
    requires pkg.tableName in tables
    ensures KnowsColumn(pkg, tables, name) <==> NameKnown(pkg, tables, name)
  {
  }

  /** What else the validator looks at: version, parameters, tables and columns, and
      that no literal is empty. */
  predicate HeaderPasses(pkg: QueryPackage, tables: TableMap, paramSetId: string) {
    && pkg.protocolVersion == 2 && pkg.paramSetId == paramSetId
    && pkg.tableName in tables
    && (forall k :: 0 <= k < |pkg.scanColumns| ==> tables[pkg.tableName].HasColumn(pkg.scanColumns[k]))
    && (forall k :: 0 <= k < |pkg.projectColumns| ==> KnowsColumn(pkg, tables, pkg.projectColumns[k]))
    && (forall i :: 0 <= i < |pkg.encryptedLiterals| ==> pkg.encryptedLiterals[i].bytes.Serialized?)
  }

  lemma LiteralsFull(literals: seq<LiteralEntry>)
    ensures NoEmptyLiteral(literals) <==> forall i :: 0 <= i < |literals| ==> literals[i].bytes.Serialized?
  {
    assert forall i :: 0 <= i < |literals| ==> (literals[i].bytes.Serialized? <==> !literals[i].bytes.Empty?);
  }

  lemma HeaderExactly(pkg: QueryPackage, tables: TableMap, paramSetId: string, stack: nat)
    requires pkg.predicateNodes == []
    ensures PackageAccepted(pkg, tables, paramSetId, stack) <==> HeaderPasses(pkg, tables, paramSetId)
  {
    if pkg.tableName in tables {
      forall k | 0 <= k < |pkg.projectColumns|
        ensures KnowsColumn(pkg, tables, pkg.projectColumns[k]) <==> NameKnown(pkg, tables, pkg.projectColumns[k])
      {
        ColumnKnown(pkg, tables, pkg.projectColumns[k]);
      }
      LiteralsFull(pkg.encryptedLiterals);
    }
  }

  lemma HeaderWithout(pkg: QueryPackage, tables: TableMap, paramSetId: string)
    ensures HeaderPasses(pkg.(predicateNodes := []), tables, paramSetId) <==> HeaderPasses(pkg, tables, paramSetId)
  {
    if pkg.tableName in tables {
      assert forall name :: KnowsColumn(pkg.(predicateNodes := []), tables, name) <==> KnowsColumn(pkg, tables, name);
    }
  }

  lemma AcceptedApart(pkg: QueryPackage, tables: TableMap, paramSetId: string, stack: nat)
    ensures PackageAccepted(pkg, tables, paramSetId, stack) <==>
      && PackageAccepted(pkg.(predicateNodes := []), tables, paramSetId, stack)
      && (pkg.predicateNodes != [] ==> TreeAccepted(pkg, tables, ToU32(|pkg.predicateNodes| - 1), stack))
  {
    if pkg.tableName in tables {
      assert forall name :: NameKnown(pkg.(predicateNodes := []), tables, name) <==> NameKnown(pkg, tables, name);
    }
  }

  /** The last node of the array, whose index wraps around at 32 bits. */
  function Root(pkg: QueryPackage): uint32
    requires pkg.predicateNodes != []
  {
    (|pkg.predicateNodes| - 1) % 0x1_0000_0000
  }

  ghost predicate RootAccepted(pkg: QueryPackage, tables: TableMap, stack: nat) {
    pkg.predicateNodes != [] ==> pkg.tableName in tables && TreeAccepted(pkg, tables, Root(pkg), stack)
  }

  lemma HeaderAndRoot(pkg: QueryPackage, tables: TableMap, paramSetId: string, stack: nat)
    ensures PackageAccepted(pkg, tables, paramSetId, stack) <==>
      HeaderPasses(pkg, tables, paramSetId) && RootAccepted(pkg, tables, stack)
  {
    AcceptedApart(pkg, tables, paramSetId, stack);
    HeaderWithout(pkg, tables, paramSetId);
    HeaderExactly(pkg.(predicateNodes := []), tables, paramSetId, stack);
  }

  /** The predicate, if there is one, passes everywhere from the last node on. */
  ghost predicate PredicatePasses(pkg: QueryPackage, tables: TableMap, stack: nat) {
    pkg.predicateNodes != [] ==> pkg.tableName in tables && Everywhere(pkg, Root(pkg), stack, Passing(pkg, tables))
  }

  lemma RootExactly(pkg: QueryPackage, tables: TableMap, stack: nat)
    ensures RootAccepted(pkg, tables, stack) <==> PredicatePasses(pkg, tables, stack)
  {
    if pkg.tableName in tables && pkg.predicateNodes != [] {
      TreeExactly(pkg, tables, Root(pkg), stack);
    }
  }

  /** A package is accepted iff its header and its predicate pass. */
  lemma ValidatesExactly(pkg: QueryPackage, tables: TableMap, paramSetId: string, stack: nat)
    ensures PackageAccepted(pkg, tables, paramSetId, stack) <==>
      HeaderPasses(pkg, tables, paramSetId) && PredicatePasses(pkg, tables, stack)
  {
    HeaderAndRoot(pkg, tables, paramSetId, stack);
    RootExactly(pkg, tables, stack);
  }

  // ---- The executor ----

  predicate FirstWithId(literals: seq<LiteralEntry>, i: nat, id: int) {
    i < |literals| && literals[i].id == id && forall j :: 0 <= j < i ==> literals[j].id != id
  }

  /** The first entry with the id has a ciphertext. */
  predicate HasCiphertext(literals: seq<LiteralEntry>, id: int) {
    exists i :: 0 <= i < |literals| && FirstWithId(literals, i, id) && literals[i].bytes.Serialized?
  }

  predicate HasCiphertextAt(literals: seq<LiteralEntry>, node: PredNode, k: nat) {
    HasCiphertext(literals, (node.literalId + k) % 0x1_0000_0000)
  }

  predicate HasCiphertexts(literals: seq<LiteralEntry>, node: PredNode, k: nat) {
    forall j :: 0 <= j < k ==> HasCiphertextAt(literals, node, j)
  }

  /** What rebuilding needs of one node. */
  predicate NodeRebuilds(pkg: QueryPackage, idx: uint32) {
    && idx < |pkg.predicateNodes|
    && var node := pkg.predicateNodes[idx];
    && (node.kind == LiteralNode ==> HasCiphertext(pkg.encryptedLiterals, node.literalId))
    && (node.kind == StringEqualNode || node.kind == StringNotEqualNode ==>
          node.stringWidth > 0 && HasCiphertexts(pkg.encryptedLiterals, node, node.stringWidth))
  }

  function Rebuilding(pkg: QueryPackage): set<uint32> {
    set i: uint32 | i < |pkg.predicateNodes| && NodeRebuilds(pkg, i)
  }

  lemma FirstShifts(literals: seq<LiteralEntry>, i: nat, id: int)
    requires literals != [] && literals[0].id != id
    ensures FirstWithId(literals[1..], i, id) <==> FirstWithId(literals, i + 1, id)
  {
    if FirstWithId(literals, i + 1, id) {
      assert forall j :: 0 <= j < i ==> literals[1..][j] == literals[j + 1];
    }
    if FirstWithId(literals[1..], i, id) {
      assert forall j :: 0 < j < i + 1 ==> literals[j] == literals[1..][j - 1];
    }
  }

  lemma {:induction false} CiphertextFound(literals: seq<LiteralEntry>, id: uint32)
    ensures HasCiphertext(literals, id) <==> LiteralCiphertext(literals, id).Ok?
  {
    if literals != [] {
      if literals[0].id == id {
        assert FirstWithId(literals, 0, id);
      } else {
        CiphertextFound(literals[1..], id);
        if HasCiphertext(literals, id) {
          var i :| 0 <= i < |literals| && FirstWithId(literals, i, id) && literals[i].bytes.Serialized?;
          FirstShifts(literals, i - 1, id);
        }
        if HasCiphertext(literals[1..], id) {
          var i :| 0 <= i < |literals[1..]| && FirstWithId(literals[1..], i, id) && literals[1..][i].bytes.Serialized?;
          FirstShifts(literals, i, id);
        }
      }
    }
  }

  predicate TestsBuilt(literals: seq<LiteralEntry>, node: PredNode, k: nat) { PositionTests(literals, node, k).Ok? }

  lemma TestsNext(literals: seq<LiteralEntry>, node: PredNode, k: nat)
    ensures TestsBuilt(literals, node, k + 1) <==> TestsBuilt(literals, node, k) && HasCiphertextAt(literals, node, k)
  {
    CiphertextFound(literals, ToU32(node.literalId + k));
  }

  lemma CiphertextsNext(literals: seq<LiteralEntry>, node: PredNode, k: nat)
    ensures HasCiphertexts(literals, node, k + 1) <==>
      HasCiphertexts(literals, node, k) && HasCiphertextAt(literals, node, k)
  {
  }

  lemma {:induction false} TestsExactly(literals: seq<LiteralEntry>, node: PredNode, k: nat)
    ensures TestsBuilt(literals, node, k) <==> HasCiphertexts(literals, node, k)
  {
    if k > 0 {
      TestsExactly(literals, node, k - 1);
      TestsNext(literals, node, k - 1);
      CiphertextsNext(literals, node, k - 1);
    }
  }

  lemma RebuiltHere(pkg: QueryPackage, idx: uint32, stack: nat)
    requires stack > 0
    ensures RebuildNode(pkg, idx, stack).Ok? <==>
      && NodeRebuilds(pkg, idx)
      && var node := pkg.predicateNodes[idx];
      !IsLeafKind(node.kind) ==>
        && RebuildNode(pkg, node.left, stack - 1).Ok?
        && (node.kind != NotNode ==> RebuildNode(pkg, node.right, stack - 1).Ok?)
  {
    if idx < |pkg.predicateNodes| {
      var node := pkg.predicateNodes[idx];
      if node.kind == LiteralNode {
        CiphertextFound(pkg.encryptedLiterals, node.literalId);
      } else if node.kind == StringEqualNode || node.kind == StringNotEqualNode {
        TestsExactly(pkg.encryptedLiterals, node, node.stringWidth);
      }
    }
  }

  /** Rebuilding a node succeeds iff every walk from it fits the stack and ends at a node
      of the array whose literals, if it has any, are there. */
  lemma {:induction false} RebuildExactly(pkg: QueryPackage, idx: uint32, stack: nat)
    ensures RebuildNode(pkg, idx, stack).Ok? <==> Everywhere(pkg, idx, stack, Rebuilding(pkg))
    decreases stack
  {
    var good := Rebuilding(pkg);
    if stack == 0 {
      assert Walk(pkg, idx, []) == Some(idx);
    } else {
      RebuiltHere(pkg, idx, stack);
      if NodeRebuilds(pkg, idx) && !IsLeafKind(pkg.predicateNodes[idx].kind) {
        var node := pkg.predicateNodes[idx];
        RebuildExactly(pkg, node.left, stack - 1);
        if node.kind != NotNode {
          RebuildExactly(pkg, node.right, stack - 1);
        }
      }
      EverywhereIff(pkg, idx, stack, good);
    }
  }
}
