// The columns of a joined pair of rows: what each alias contributes, and why a mask
// computed on the left columns alone is the mask of the pair.

module JoinColumns {
  import opened Common
  import opened Catalog
  import opened PrimeField
  import opened Circuit
  import opened Package
  import opened Execution
  import opened JoinExecution

  predicate DotFree(s: string) { '.' !in s }

  lemma KeyParts(alias: string, name: string)
    requires DotFree(alias)
    ensures Qualified(Key(alias, name)) && AliasPart(Key(alias, name)) == alias && BareName(Key(alias, name)) == name
  {
    var key := Key(alias, name);
    assert forall i :: 0 <= i < |alias| ==> key[i] == alias[i] != '.';
    assert key[|alias|] == '.';
    assert DotAt(key) == |alias|;
  }

  /** The column belongs to that alias. */
  predicate UnderAlias(x: PhysicalColumn, alias: string) {
    match x
    case Plain(name) => Qualified(name) && AliasPart(name) == alias
    case AliasedCharAt(a, _, _) => a == alias
    case CharAt(_, _) => false
  }

  lemma AliasedUnder(alias: string, c: ColumnSchema, k: nat)
    requires DotFree(alias)
    ensures UnderAlias(AliasedAt(alias, c, k), alias)
  {
    KeyParts(alias, c.name);
  }

  predicate SameAt(a: Columns, b: Columns, x: PhysicalColumn) {
    (x in a <==> x in b) && (x in a && x in b ==> a[x] == b[x])
  }

  lemma {:induction false} AddAliasedKeeps(base: Columns, c: ColumnSchema, alias: string, chunk: StoredChunk, k: nat,
                                           x: PhysicalColumn)
    requires ColumnStored(c, chunk.columns) && k <= PhysicalWidth(c)
    requires DotFree(alias) && !UnderAlias(x, alias)
    ensures SameAt(base, AddAliased(base, c, alias, chunk, k), x)
  {
    if k > 0 {
      AddAliasedKeeps(base, c, alias, chunk, k - 1, x);
      AliasedUnder(alias, c, k - 1);
    }
  }

  /** Adding a table touches only its alias. */
  lemma {:induction false} WithTableKeeps(base: Columns, columns: seq<ColumnSchema>, alias: string, chunk: StoredChunk,
                                          k: nat, x: PhysicalColumn)
    requires k <= |columns| && FirstAliasable(columns, chunk, k)
    requires DotFree(alias) && !UnderAlias(x, alias)
    ensures SameAt(base, WithTable(base, columns, alias, chunk, k), x)
  {
    if k > 0 {
      WithTableKeeps(base, columns, alias, chunk, k - 1, x);
      AddAliasedKeeps(WithTable(base, columns, alias, chunk, k - 1), columns[k - 1], alias, chunk,
                      PhysicalWidth(columns[k - 1]), x);
    }
  }

  ghost predicate DistinctNames(columns: seq<ColumnSchema>) {
    forall i, j :: 0 <= i < j < |columns| ==> columns[i].name != columns[j].name
  }

  lemma {:induction false} AddOtherColumn(base: Columns, c: ColumnSchema, alias: string, chunk: StoredChunk, k: nat,
                                          name: string)
    requires ColumnStored(c, chunk.columns) && k <= PhysicalWidth(c)
    requires DotFree(alias) && c.name != name
    ensures SameAt(base, AddAliased(base, c, alias, chunk, k), Plain(Key(alias, name)))
  {
    if k > 0 {
      AddOtherColumn(base, c, alias, chunk, k - 1, name);
      KeyParts(alias, name);
      KeyParts(alias, c.name);
    }
  }

  /** An integer column of the table is found under its alias. */
  lemma {:induction false} WithTableHolds(base: Columns, columns: seq<ColumnSchema>, alias: string, chunk: StoredChunk,
                                          k: nat, j: nat)
    requires j < k <= |columns| && FirstAliasable(columns, chunk, k) && DistinctNames(columns)
    requires DotFree(alias) && columns[j].kind != STRING
    ensures
      var columns' := WithTable(base, columns, alias, chunk, k);
      var key := Plain(Key(alias, columns[j].name));
      && PhysicalAt(columns[j], 0) in chunk.columns
      && key in columns' && columns'[key] == chunk.columns[PhysicalAt(columns[j], 0)]
  {
    var c := columns[k - 1];
    if j == k - 1 {
      assert PhysicalAt(c, 0) in chunk.columns;
    } else {
      WithTableHolds(base, columns, alias, chunk, k - 1, j);
      AddOtherColumn(WithTable(base, columns, alias, chunk, k - 1), c, alias, chunk, PhysicalWidth(c), columns[j].name);
    }
  }

  // ---- Hoisting ----

  predicate AliasesApart(pkg: QueryPackage) {
    DotFree(pkg.tableAlias) && DotFree(pkg.joinedTableAlias) && pkg.tableAlias != pkg.joinedTableAlias
  }

  predicate PairAliasable(pkg: QueryPackage, tables: TableMap, left: StoredChunk, right: StoredChunk) {
    && pkg.tableName in tables && AllAliasable(tables[pkg.tableName].columns, left)
    && pkg.joinedTableName in tables && AllAliasable(tables[pkg.joinedTableName].columns, right)
  }

  lemma LeftIncluded(pkg: QueryPackage, tables: TableMap, left: StoredChunk, right: StoredChunk)
    requires AliasesApart(pkg) && PairAliasable(pkg, tables, left, right)
    ensures Includes(LeftColumns(pkg, tables, left), PairColumns(pkg, tables, left, right))
  {
    var lefts, rights := tables[pkg.tableName].columns, tables[pkg.joinedTableName].columns;
    var leftOnly := LeftColumns(pkg, tables, left);
    forall x | x in leftOnly
      ensures x in PairColumns(pkg, tables, left, right) && PairColumns(pkg, tables, left, right)[x] == leftOnly[x]
    {
      if !UnderAlias(x, pkg.tableAlias) {
        WithTableKeeps(map[], lefts, pkg.tableAlias, left, |lefts|, x);
      }
      WithTableKeeps(leftOnly, rights, pkg.joinedTableAlias, right, |rights|, x);
    }
  }

  /** The circuit of a pair's mask, had WHERE been evaluated on the pair. */
  function PairCircuit(pkg: QueryPackage, where: Option<Circuit>): Circuit {
    if where.None? then KeyTest(pkg) else Conj(KeyTest(pkg), where.value)
  }

  /** Hoisting is sound for every filter: with distinct aliases, multiplying in the
      mask computed once on the left row gives the mask of key test AND filter
      evaluated on the whole pair. */
  lemma HoistingSound(p: OddPrime, pkg: QueryPackage, tables: TableMap, where: Option<Circuit>, left: StoredChunk,
                      right: StoredChunk)
    requires AliasesApart(pkg) && PairAliasable(pkg, tables, left, right)
    requires PairMask(p, pkg, tables, where, left, right).Ok?
    ensures
      var mask := PairMask(p, pkg, tables, where, left, right);
      && Evaluable(PairCircuit(pkg, where), PairColumns(pkg, tables, left, right), 1)
      && |mask.value.slots| == 1
      && mask.value.slots[0] == SlotValue(p, PairCircuit(pkg, where), PairColumns(pkg, tables, left, right), 1, 0)
  {
    var pair, leftOnly := PairColumns(pkg, tables, left, right), LeftColumns(pkg, tables, left);
    if where.Some? && !UsesJoined(pkg) {
      LeftIncluded(pkg, tables, left, right);
      EvaluateMore(p, where.value, leftOnly, pair, 1, 0);
    }
  }
}
