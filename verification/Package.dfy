// The unit the client sends to the server.

module Package {
  import opened Common
  import opened Catalog
  import opened Circuit

  datatype PredNodeKind =
    | ColumnNode
    | LiteralNode
    | EqualNode
    | NotEqualNode
    | GreaterThanNode
    | LessThanNode
    | GreaterEqualNode
    | LessEqualNode
    | AndNode
    | OrNode
    | NotNode
    | StringEqualNode
    | StringNotEqualNode

  /** A node of the flat predicate array; UINT32_MAX stands for no child. */
  datatype PredNode = PredNode(
    kind: PredNodeKind,
    columnName: string,
    literalId: uint32,
    stringWidth: uint32,
    left: uint32,
    right: uint32)

  const BLANK_NODE := PredNode(ColumnNode, "", 0, 0, UINT32_MAX, UINT32_MAX)

  /** Serialised ciphertext: no bytes, or bytes that deserialise to a ciphertext. */
  datatype CipherBytes = Empty | Serialized(ciphertext: Ciphertext)

  datatype LiteralEntry = LiteralEntry(id: uint32, logicalType: string, bytes: CipherBytes)

  datatype QueryPackage = QueryPackage(
    protocolVersion: uint32,
    tableName: string,
    tableAlias: string,
    hasJoin: bool,
    joinedTableName: string,
    joinedTableAlias: string,
    joinLeftColumn: string,
    joinRightColumn: string,
    scanColumns: seq<string>,
    projectColumns: seq<string>,
    resultSchema: seq<ColumnSchema>,
    predicateNodes: seq<PredNode>,
    encryptedLiterals: seq<LiteralEntry>,
    paramSetId: string)

  /** The entry the server picks for an id: the first that carries it. */
  function FirstLiteral(literals: seq<LiteralEntry>, id: uint32): (r: Option<LiteralEntry>)
    ensures r.None? <==> forall i :: 0 <= i < |literals| ==> literals[i].id != id
    ensures r.Some? ==> r.value in literals && r.value.id == id
  {
    if literals == [] then None
    else if literals[0].id == id then Some(literals[0])
    else FirstLiteral(literals[1..], id)
  }

  /** Ids count up from zero, as long as they fit 32 bits. */
  ghost predicate Numbered(literals: seq<LiteralEntry>) {
    forall i :: 0 <= i < |literals| ==> literals[i].id == ToU32(i)
  }

  lemma {:induction false} FirstLiteralAt(literals: seq<LiteralEntry>, id: uint32, k: nat)
    requires k < |literals| && literals[k].id == id
    requires forall j :: 0 <= j < k ==> literals[j].id != id
    ensures FirstLiteral(literals, id) == Some(literals[k])
  {
    if k > 0 {
      FirstLiteralAt(literals[1..], id, k - 1);
    }
  }

  /** With at most 2^32 numbered literals, looking up an id finds its own entry. */
  lemma NumberedLookup(literals: seq<LiteralEntry>, k: nat)
    requires Numbered(literals) && k < |literals| <= 0x1_0000_0000
    ensures FirstLiteral(literals, k) == Some(literals[k])
  {
    assert ToU32(k) == k;
    forall j | 0 <= j < k
      ensures literals[j].id != k
    {
      assert literals[j].id == ToU32(j) == j;
    }
    FirstLiteralAt(literals, k, k);
  }

  method FindLiteral(literals: seq<LiteralEntry>, id: uint32) returns (entry: Option<LiteralEntry>)
    ensures entry == FirstLiteral(literals, id)
  {
    entry := None;
    for i := 0 to |literals|
      invariant forall j :: 0 <= j < i ==> literals[j].id != id
    {
      if literals[i].id == id {
        FirstLiteralAt(literals, id, i);
        return Some(literals[i]);
      }
    }
  }
}
