// The compiled predicate computes the plaintext predicate, slot by slot.

module Compiler {
  import opened Common
  import opened Catalog
  import opened Ast
  import opened PrimeField
  import opened Masks
  import opened Circuit
  import opened Package
  import opened Encryptor
  import opened Rebuild
  import opened Plain

  // ---- Columns of a batch against a plaintext row ----

  ghost predicate IntHeld(p: OddPrime, columns: Columns, n: nat, i: nat, name: string, row: Row)
    requires i < n
  {
    && Plain(name) in columns
    && n <= |columns[Plain(name)].slots|
    && columns[Plain(name)].slots[i] == IntAt(row, name) % p
  }

  ghost predicate StringHeld(p: OddPrime, columns: Columns, n: nat, i: nat, name: string, width: nat, row: Row)
    requires i < n
  {
    forall k :: 0 <= k < width ==>
      && CharAt(name, k) in columns
      && n <= |columns[CharAt(name, k)].slots|
      && columns[CharAt(name, k)].slots[i] == PaddedCode(StringAt(row, name), k) % p
  }

  ghost predicate TermHeld(p: OddPrime, e: Expr, columns: Columns, n: nat, i: nat, row: Row)
    requires i < n && IsIntTerm(e)
  {
    e.ColumnRef? ==> IntHeld(p, columns, n, i, e.name, row)
  }

  /** Slot i of every column the predicate reads holds the row's value, mod p. */
  ghost predicate RowHeld(p: OddPrime, e: Expr, schema: TableSchema, columns: Columns, n: nat, i: nat, row: Row)
    requires i < n && IsPredicate(e, schema)
  {
    match e
    case Compare(op, l, r) =>
      if IsStringComparison(l, r) then
        StringHeld(p, columns, n, i, StringColumn(l, r), StringWidth(l, r, schema), row)
      else TermHeld(p, l, columns, n, i, row) && TermHeld(p, r, columns, n, i, row)
    case And(l, r) => RowHeld(p, l, schema, columns, n, i, row) && RowHeld(p, r, schema, columns, n, i, row)
    case Or(l, r) => RowHeld(p, l, schema, columns, n, i, row) && RowHeld(p, r, schema, columns, n, i, row)
    case Not(l) => RowHeld(p, l, schema, columns, n, i, row)
  }

  // ---- Leaves ----

  lemma {:induction false} PredicateCompiles(e: Expr, schema: TableSchema)
    requires IsPredicate(e, schema)
    ensures Compilable(e, schema) && WidthsPositive(e, schema)
  {
    if e.And? || e.Or? {
      PredicateCompiles(e.left, schema);
      PredicateCompiles(e.right, schema);
    } else if e.Not? {
      PredicateCompiles(e.left, schema);
    }
  }

  /** A circuit that is evaluable and whose slot i is v. */
  ghost predicate Yields(p: OddPrime, c: Circuit, columns: Columns, n: nat, i: nat, v: int)
    requires i < n
  {
    Evaluable(c, columns, n) && SlotValue(p, c, columns, n, i) == v
  }

  lemma ReduceTwice(p: OddPrime, a: int)
    ensures 0 <= a % p < p && a % p % p == a % p
  {
    SmallRemainder(p, a % p);
  }

  /** On reduced operands every comparison circuit is a mask of the Z_p comparison. */
  lemma ComparisonCircuit(p: OddPrime, op: CmpOp, l: Circuit, r: Circuit, columns: Columns, n: nat, i: nat,
                          x: int, y: int)
    requires i < n && 0 <= x < p && 0 <= y < p
    requires Yields(p, l, columns, n, i, x) && Yields(p, r, columns, n, i, y)
    ensures Yields(p, BinaryCircuit(CompareKind(op), l, r), columns, n, i, Bit(ZpCompare(p, op, x, y)))
  {
    SmallRemainder(p, x);
    SmallRemainder(p, y);
    EqMaskExact(p, x, y);
    GtMaskExact(p, x, y);
    GtMaskExact(p, y, x);
    ConnectivesOnBits(p, x == y, false);
    ConnectivesOnBits(p, ZpAbove(p, x, y), x == y);
    ConnectivesOnBits(p, ZpAbove(p, y, x), x == y);
  }

  lemma TermCircuit(p: OddPrime, slotCount: nat, e: Expr, schema: TableSchema, columns: Columns, n: nat, i: nat,
                    row: Row)
    requires IsIntTerm(e) && i < n <= slotCount && TermHeld(p, e, columns, n, i, row)
    ensures Yields(p, Translate(p, slotCount, e, schema), columns, n, i, IntTerm(e, row) % p)
  {
  }

  lemma PositionCircuit(p: OddPrime, slotCount: nat, column: string, k: nat, stored: int, wanted: int,
                        columns: Columns, n: nat, i: nat)
    requires i < n <= slotCount && CharAt(column, k) in columns && n <= |columns[CharAt(column, k)].slots|
    requires columns[CharAt(column, k)].slots[i] == stored % p
    ensures Yields(p, PositionTest(column, k, EncryptScalar(p, slotCount, wanted)), columns, n, i,
                   Bit(stored % p == wanted % p))
  {
    EqMaskExact(p, stored % p, wanted % p);
    ReduceTwice(p, stored);
    ReduceTwice(p, wanted);
  }

  function SameCodes(p: OddPrime, s: string, t: string, width: nat): seq<bool> {
    seq(width, k requires 0 <= k < width => PaddedCode(s, k) % p == PaddedCode(t, k) % p)
  }

  /** The balanced AND of position tests is a mask of padded equality. */
  lemma AllPositionsCircuit(p: OddPrime, slotCount: nat, column: string, value: string, width: nat,
                            columns: Columns, n: nat, i: nat, row: Row)
    requires i < n <= slotCount && width > 0 && StringHeld(p, columns, n, i, column, width, row)
    ensures Yields(p, Combine(StringTests(p, slotCount, column, value, width), 0, width), columns, n, i,
                   Bit(ZpSameString(p, StringAt(row, column), value, width)))
  {
    var tests := StringTests(p, slotCount, column, value, width);
    var s := StringAt(row, column);
    var bits := SameCodes(p, s, value, width);
    forall k | 0 <= k < width
      ensures Evaluable(tests[k], columns, n) && SlotValue(p, tests[k], columns, n, i) == Bit(bits[k])
    {
      PositionCircuit(p, slotCount, column, k, PaddedCode(s, k), PaddedCode(value, k), columns, n, i);
    }
    CombineIsConjunction(p, tests, 0, width, columns, n, i, bits);
    SameCodesMeaning(p, s, value, width);
  }

  lemma SameCodesMeaning(p: OddPrime, s: string, t: string, width: nat)
    ensures (forall k :: 0 <= k < width ==> SameCodes(p, s, t, width)[k]) <==> ZpSameString(p, s, t, width)
  {
    var bits := SameCodes(p, s, t, width);
    if forall k :: 0 <= k < width ==> bits[k] {
      forall k | 0 <= k < width
        ensures PaddedCode(s, k) % p == PaddedCode(t, k) % p
      {
        assert bits[k];
      }
    }
  }

  lemma StringTestCircuit(p: OddPrime, slotCount: nat, op: CmpOp, column: string, value: string, width: nat,
                          columns: Columns, n: nat, i: nat, row: Row)
    requires i < n <= slotCount && width > 0 && StringHeld(p, columns, n, i, column, width, row)
    ensures Yields(p, StringTest(p, slotCount, op, column, value, width), columns, n, i,
                   Bit(ZpSameString(p, StringAt(row, column), value, width) == (op == Equal)))
  {
    AllPositionsCircuit(p, slotCount, column, value, width, columns, n, i, row);
    ConnectivesOnBits(p, ZpSameString(p, StringAt(row, column), value, width), false);
  }

  lemma ConnectiveCircuit(p: OddPrime, kind: PredNodeKind, l: Circuit, r: Circuit, columns: Columns, n: nat, i: nat,
                          x: bool, y: bool)
    requires kind == AndNode || kind == OrNode
    requires i < n && Yields(p, l, columns, n, i, Bit(x)) && Yields(p, r, columns, n, i, Bit(y))
    ensures Yields(p, BinaryCircuit(kind, l, r), columns, n, i, Bit(if kind == AndNode then x && y else x || y))
  {
    ConnectivesOnBits(p, x, y);
  }

  // ---- Meaning preservation ----

  /** For every row, whatever its values: the circuit of a predicate is a 0/1 mask
      of its Z_p reading. */
  lemma {:induction false} CircuitComputesZp(p: OddPrime, slotCount: nat, e: Expr, schema: TableSchema,
                                             columns: Columns, n: nat, i: nat, row: Row)
    requires IsPredicate(e, schema) && i < n <= slotCount && RowHeld(p, e, schema, columns, n, i, row)
    ensures Compilable(e, schema) && WidthsPositive(e, schema)
    ensures Yields(p, Translate(p, slotCount, e, schema), columns, n, i, Bit(ZpEval(p, e, schema, row)))
  {
    PredicateCompiles(e, schema);
    match e
    case Compare(op, l, r) =>
      if IsStringComparison(l, r) {
        StringTestCircuit(p, slotCount, op, StringColumn(l, r), StringOperand(l, r), StringWidth(l, r, schema),
                          columns, n, i, row);
      } else {
        TermCircuit(p, slotCount, l, schema, columns, n, i, row);
        TermCircuit(p, slotCount, r, schema, columns, n, i, row);
        ReduceTwice(p, IntTerm(l, row));
        ReduceTwice(p, IntTerm(r, row));
        ComparisonCircuit(p, op, Translate(p, slotCount, l, schema), Translate(p, slotCount, r, schema),
                          columns, n, i, IntTerm(l, row) % p, IntTerm(r, row) % p);
      }
    case And(l, r) =>
      CircuitComputesZp(p, slotCount, l, schema, columns, n, i, row);
      CircuitComputesZp(p, slotCount, r, schema, columns, n, i, row);
      ConnectiveCircuit(p, AndNode, Translate(p, slotCount, l, schema), Translate(p, slotCount, r, schema),
                        columns, n, i, ZpEval(p, l, schema, row), ZpEval(p, r, schema, row));
    case Or(l, r) =>
      CircuitComputesZp(p, slotCount, l, schema, columns, n, i, row);
      CircuitComputesZp(p, slotCount, r, schema, columns, n, i, row);
      ConnectiveCircuit(p, OrNode, Translate(p, slotCount, l, schema), Translate(p, slotCount, r, schema),
                        columns, n, i, ZpEval(p, l, schema, row), ZpEval(p, r, schema, row));
    case Not(l) =>
      CircuitComputesZp(p, slotCount, l, schema, columns, n, i, row);
      ConnectivesOnBits(p, ZpEval(p, l, schema, row), false);
  }

  const NO_TABLES := Tables([], [])

  /** The package carries the walk over e, addressable by 32-bit indices and ids. */
  ghost predicate CarriesPredicate(p: OddPrime, slotCount: nat, e: Expr, schema: TableSchema, pkg: QueryPackage)
    requires Compilable(e, schema)
  {
    && Tables(pkg.predicateNodes, pkg.encryptedLiterals) == After(p, slotCount, e, schema, NO_TABLES)
    && NodeCount(e) <= UINT32_MAX
    && LiteralCount(e, schema) <= UINT32_MAX
  }

  /** Linearise, ship, rebuild: the server recovers the circuit of the tree. */
  lemma RebuildCarried(p: OddPrime, slotCount: nat, e: Expr, schema: TableSchema, pkg: QueryPackage, stack: nat)
    requires Compilable(e, schema) && CarriesPredicate(p, slotCount, e, schema, pkg) && stack >= Height(e)
    ensures 0 < |pkg.predicateNodes| <= UINT32_MAX
    ensures RebuildNode(pkg, |pkg.predicateNodes| - 1, stack) == Rebuilt(p, slotCount, e, schema)
  {
    WalkExtends(p, slotCount, e, schema, NO_TABLES);
    WalkRepresents(p, slotCount, e, schema, NO_TABLES);
    RebuildRepresented(p, slotCount, e, schema, pkg, |pkg.predicateNodes| - 1, stack);
  }

  /** Compiler correctness. For every well-typed predicate, every row in range and
      every batch slot holding that row, the expression the server rebuilds from
      the shipped package evaluates to exactly 1 when the plaintext predicate is
      true and to 0 when it is false. */
  lemma CompilerCorrect(p: OddPrime, slotCount: nat, e: Expr, schema: TableSchema, pkg: QueryPackage, stack: nat,
                        columns: Columns, n: nat, i: nat, row: Row)
    requires IsPredicate(e, schema) && InRange(p, e, schema, row)
    requires Compilable(e, schema) && CarriesPredicate(p, slotCount, e, schema, pkg) && stack >= Height(e)
    requires i < n <= slotCount && RowHeld(p, e, schema, columns, n, i, row)
    ensures 0 < |pkg.predicateNodes| <= UINT32_MAX
    ensures
      var c := RebuildNode(pkg, |pkg.predicateNodes| - 1, stack);
      c.Ok? && Yields(p, c.value, columns, n, i, Bit(EvalPlain(e, schema, row)))
  {
    RebuildCarried(p, slotCount, e, schema, pkg, stack);
    CircuitComputesZp(p, slotCount, e, schema, columns, n, i, row);
    ZpEvalInRange(p, e, schema, row);
  }

  // ---- Multiplicative depth of compiled predicates ----

  /** Depth above the comparison level, read off the tree: >= and <= add the OR of
      two comparisons, AND and OR add one level, a string comparison adds the
      height of its balanced AND. */
  function LevelsAbove(e: Expr, schema: TableSchema): nat
    requires IsPredicate(e, schema)
  {
    match e
    case Compare(op, l, r) =>
      if IsStringComparison(l, r) then CeilLog2(StringWidth(l, r, schema))
      else if op == GreaterEqual || op == LessEqual then 1
      else 0
    case And(l, r) => 1 + Max(LevelsAbove(l, schema), LevelsAbove(r, schema))
    case Or(l, r) => 1 + Max(LevelsAbove(l, schema), LevelsAbove(r, schema))
    case Not(l) => LevelsAbove(l, schema)
  }

  lemma StringTestDepth(p: OddPrime, slotCount: nat, op: CmpOp, column: string, value: string, width: nat)
    requires width > 0
    ensures Depth(p, StringTest(p, slotCount, op, column, value, width)) == CeilLog2(p - 1) + CeilLog2(width)
  {
    CombineDepth(p, StringTests(p, slotCount, column, value, width), 0, width, CeilLog2(p - 1));
  }

  lemma IntComparisonDepth(p: OddPrime, op: CmpOp, l: Circuit, r: Circuit)
    requires Depth(p, l) == 0 && Depth(p, r) == 0
    ensures Depth(p, BinaryCircuit(CompareKind(op), l, r)) ==
      CeilLog2(p - 1) + if op == GreaterEqual || op == LessEqual then 1 else 0
  {
  }

  lemma ComparisonDepth(p: OddPrime, slotCount: nat, e: Expr, schema: TableSchema)
    requires IsPredicate(e, schema) && e.Compare? && Compilable(e, schema) && WidthsPositive(e, schema)
    ensures Depth(p, Translate(p, slotCount, e, schema)) == CeilLog2(p - 1) + LevelsAbove(e, schema)
  {
    var l, r := e.left, e.right;
    if IsStringComparison(l, r) {
      StringTestDepth(p, slotCount, e.op, StringColumn(l, r), StringOperand(l, r), StringWidth(l, r, schema));
    } else {
      IntComparisonDepth(p, e.op, Translate(p, slotCount, l, schema), Translate(p, slotCount, r, schema));
    }
  }

  lemma ConnectiveDepth(p: OddPrime, slotCount: nat, e: Expr, schema: TableSchema, left: nat, right: nat)
    requires (e.And? || e.Or?) && Compilable(e, schema) && WidthsPositive(e, schema)
    requires Depth(p, Translate(p, slotCount, e.left, schema)) == left
    requires Depth(p, Translate(p, slotCount, e.right, schema)) == right
    ensures Depth(p, Translate(p, slotCount, e, schema)) == 1 + Max(left, right)
  {
  }

  lemma NegationDepth(p: OddPrime, slotCount: nat, e: Expr, schema: TableSchema)
    requires e.Not? && Compilable(e, schema) && WidthsPositive(e, schema)
    ensures Depth(p, Translate(p, slotCount, e, schema)) == Depth(p, Translate(p, slotCount, e.left, schema))
  {
  }

  /** The depth of a compiled predicate in closed form. */
  lemma {:induction false} CompiledDepth(p: OddPrime, slotCount: nat, e: Expr, schema: TableSchema)
    requires IsPredicate(e, schema)
    ensures Compilable(e, schema) && WidthsPositive(e, schema)
    ensures Depth(p, Translate(p, slotCount, e, schema)) == CeilLog2(p - 1) + LevelsAbove(e, schema)
  {
    PredicateCompiles(e, schema);
    if e.Compare? {
      ComparisonDepth(p, slotCount, e, schema);
    } else if e.Not? {
      CompiledDepth(p, slotCount, e.left, schema);
      NegationDepth(p, slotCount, e, schema);
    } else {
      CompiledDepth(p, slotCount, e.left, schema);
      CompiledDepth(p, slotCount, e.right, schema);
      ConnectiveDepth(p, slotCount, e, schema, CeilLog2(p - 1) + LevelsAbove(e.left, schema),
                      CeilLog2(p - 1) + LevelsAbove(e.right, schema));
    }
  }

  // ---- The configured budget: p = 257, depth 12 ----

  const BUDGET: nat := 12

  /** Raising to p - 1 = 256 takes eight of the twelve multiplications. */
  lemma EightSquarings()
    ensures CeilLog2(256) == 8 && Pow(2, 3) == 8 && Pow(2, 4) == 16
  {
    assert Pow(2, 4) == 16 && Pow(2, 7) == 128 && Pow(2, 8) == 256 by {
      assert Pow(2, 2) == 4;
      assert Pow(2, 4) == 2 * (2 * Pow(2, 2));
      assert Pow(2, 6) == 2 * (2 * Pow(2, 4));
      assert Pow(2, 8) == 2 * (2 * Pow(2, 6));
    }
    CeilLog2Exact(256, 8);
    CeilLog2Exact(256, 7);
  }

  /** A whole predicate fits exactly when at most four levels lie above its
      comparisons. */
  lemma PredicateBudget(p: OddPrime, slotCount: nat, e: Expr, schema: TableSchema)
    requires IsPredicate(e, schema) && p == 257
    ensures Compilable(e, schema) && WidthsPositive(e, schema)
    ensures Depth(p, Translate(p, slotCount, e, schema)) <= BUDGET <==> LevelsAbove(e, schema) <= 4
  {
    CompiledDepth(p, slotCount, e, schema);
    EightSquarings();
  }

  /** So a string comparison of its own fits exactly up to width 16, the width of the
      sample string columns. */
  lemma StringWidthBudget(p: OddPrime, slotCount: nat, e: Expr, schema: TableSchema)
    requires IsPredicate(e, schema) && p == 257 && e.Compare? && IsStringComparison(e.left, e.right)
    ensures Compilable(e, schema) && WidthsPositive(e, schema)
    ensures Depth(p, Translate(p, slotCount, e, schema)) <= BUDGET <==> StringWidth(e.left, e.right, schema) <= 16
  {
    PredicateBudget(p, slotCount, e, schema);
    EightSquarings();
    CeilLog2Exact(StringWidth(e.left, e.right, schema), 4);
  }

  /** As either operand of an AND or an OR it fits exactly up to width 8: one on a
      sample string column exceeds the budget there. */
  lemma ConnectedStringBudget(p: OddPrime, slotCount: nat, e: Expr, schema: TableSchema, s: Expr, other: Expr)
    requires IsPredicate(e, schema) && p == 257 && (e.And? || e.Or?)
    requires (s == e.left && other == e.right) || (s == e.right && other == e.left)
    requires IsPredicate(s, schema) && IsPredicate(other, schema)
    requires s.Compare? && IsStringComparison(s.left, s.right)
    ensures Compilable(e, schema) && WidthsPositive(e, schema)
    ensures Depth(p, Translate(p, slotCount, e, schema)) <= BUDGET <==>
      StringWidth(s.left, s.right, schema) <= 8 && LevelsAbove(other, schema) <= 3
  {
    PredicateBudget(p, slotCount, e, schema);
    EightSquarings();
    CeilLog2Exact(StringWidth(s.left, s.right, schema), 3);
    assert LevelsAbove(s, schema) == CeilLog2(StringWidth(s.left, s.right, schema));
  }
}
