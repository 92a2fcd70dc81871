// The plaintext meaning of a predicate on a row: the reference the encrypted
// evaluation is compared with.

module Plain {
  import opened Common
  import opened Catalog
  import opened Ast
  import opened PrimeField
  import opened Masks
  import opened Encryptor

  datatype Value = IntValue(i: int) | StringValue(s: string)

  /** A row under the names its predicates use: bare, or qualified by an alias. */
  type Row = map<string, Value>

  function IntAt(row: Row, name: string): int {
    if name in row && row[name].IntValue? then row[name].i else 0
  }

  function StringAt(row: Row, name: string): string {
    if name in row && row[name].StringValue? then row[name].s else ""
  }

  function CompareInts(op: CmpOp, a: int, b: int): bool {
    match op
    case Equal => a == b
    case NotEqual => a != b
    case GreaterThan => a > b
    case LessThan => a < b
    case GreaterEqual => a >= b
    case LessEqual => a <= b
  }

  predicate IsIntTerm(e: Expr) { e.ColumnRef? || e.IntLiteral? }

  function IntTerm(e: Expr, row: Row): int
    requires IsIntTerm(e)
  {
    if e.ColumnRef? then IntAt(row, e.name) else e.intValue
  }

  /** Well-typed boolean trees: integer terms compared with any operator, string
      columns compared with = and != only, and connectives of those. */
  predicate IsPredicate(e: Expr, schema: TableSchema) {
    match e
    case ColumnRef(_) => false
    case IntLiteral(_) => false
    case StringLiteral(_) => false
    case Compare(op, l, r) =>
      if IsStringComparison(l, r) then
        && (op == Equal || op == NotEqual)
        && schema.HasColumn(BareName(StringColumn(l, r)))
        && StringWidth(l, r, schema) > 0
      else IsIntTerm(l) && IsIntTerm(r)
    case And(l, r) => IsPredicate(l, schema) && IsPredicate(r, schema)
    case Or(l, r) => IsPredicate(l, schema) && IsPredicate(r, schema)
    case Not(l) => IsPredicate(l, schema)
  }

  function EvalPlain(e: Expr, schema: TableSchema, row: Row): bool
    requires IsPredicate(e, schema)
  {
    match e
    case Compare(op, l, r) =>
      if IsStringComparison(l, r) then
        (StringAt(row, StringColumn(l, r)) == StringOperand(l, r)) == (op == Equal)
      else CompareInts(op, IntTerm(l, row), IntTerm(r, row))
    case And(l, r) => EvalPlain(l, schema, row) && EvalPlain(r, schema, row)
    case Or(l, r) => EvalPlain(l, schema, row) || EvalPlain(r, schema, row)
    case Not(l) => !EvalPlain(l, schema, row)
  }

  // ---- What the modular circuits decide instead ----

  /** Order in Z_p: x is above y when x - y falls in the positive half. */
  predicate ZpAbove(p: OddPrime, x: int, y: int) { 1 <= (x - y) % p <= Half(p) }

  function ZpCompare(p: OddPrime, op: CmpOp, x: int, y: int): bool {
    match op
    case Equal => x == y
    case NotEqual => x != y
    case GreaterThan => ZpAbove(p, x, y)
    case LessThan => ZpAbove(p, y, x)
    case GreaterEqual => ZpAbove(p, x, y) || x == y
    case LessEqual => ZpAbove(p, y, x) || x == y
  }

  /** Character by character equality of the zero-padded codes modulo p. */
  predicate ZpSameString(p: OddPrime, s: string, t: string, width: nat) {
    forall k :: 0 <= k < width ==> PaddedCode(s, k) % p == PaddedCode(t, k) % p
  }

  function ZpEval(p: OddPrime, e: Expr, schema: TableSchema, row: Row): bool
    requires IsPredicate(e, schema)
  {
    match e
    case Compare(op, l, r) =>
      if IsStringComparison(l, r) then
        ZpSameString(p, StringAt(row, StringColumn(l, r)), StringOperand(l, r), StringWidth(l, r, schema))
          == (op == Equal)
      else ZpCompare(p, op, IntTerm(l, row) % p, IntTerm(r, row) % p)
    case And(l, r) => ZpEval(p, l, schema, row) && ZpEval(p, r, schema, row)
    case Or(l, r) => ZpEval(p, l, schema, row) || ZpEval(p, r, schema, row)
    case Not(l) => !ZpEval(p, l, schema, row)
  }

  // ---- When the two agree ----

  /** Drops trailing NUL characters. */
  function Trim(s: string): (r: string)
    ensures r <= s
    ensures r != [] ==> r[|r| - 1] != '\0'
    ensures forall k :: |r| <= k < |s| ==> s[k] == '\0'
  {
    if s == [] || s[|s| - 1] != '\0' then s else Trim(s[..|s| - 1])
  }

  predicate CodesBelow(s: string, bound: int) {
    forall k :: 0 <= k < |s| ==> Code(s[k]) < bound
  }

  lemma TrimKeepsCodes(s: string, k: nat)
    ensures PaddedCode(Trim(s), k) == PaddedCode(s, k)
  {
  }

  lemma LongerDiffers(s: string, t: string)
    requires |s| < |t| && t[|t| - 1] != '\0'
    ensures PaddedCode(s, |t| - 1) != PaddedCode(t, |t| - 1)
  {
  }

  lemma TrimmedSamePadding(s: string, t: string, width: nat)
    requires |s| <= width && |t| <= width
    requires s != [] ==> s[|s| - 1] != '\0'
    requires t != [] ==> t[|t| - 1] != '\0'
    requires forall k :: 0 <= k < width ==> PaddedCode(s, k) == PaddedCode(t, k)
    ensures s == t
  {
    if |s| < |t| {
      LongerDiffers(s, t);
    } else if |t| < |s| {
      LongerDiffers(t, s);
    }
    forall k | 0 <= k < |s|
      ensures s[k] == t[k]
    {
      assert PaddedCode(s, k) == PaddedCode(t, k);
    }
  }

  /** Zero padding forgets exactly the trailing NULs. */
  lemma PaddingExact(p: OddPrime, s: string, t: string, width: nat)
    requires |s| <= width && |t| <= width && CodesBelow(s, p) && CodesBelow(t, p)
    ensures ZpSameString(p, s, t, width) <==> Trim(s) == Trim(t)
  {
    forall k: nat
      ensures PaddedCode(s, k) % p == PaddedCode(Trim(s), k) && PaddedCode(t, k) % p == PaddedCode(Trim(t), k)
    {
      TrimKeepsCodes(s, k);
      TrimKeepsCodes(t, k);
      SmallRemainder(p, PaddedCode(s, k));
      SmallRemainder(p, PaddedCode(t, k));
    }
    if ZpSameString(p, s, t, width) {
      TrimmedSamePadding(Trim(s), Trim(t), width);
    }
  }

  predicate FitsWidth(p: OddPrime, s: string, width: nat) { |s| <= width && CodesBelow(s, p) }

  /** Two integers are close enough for the operator: less than p apart for = and !=,
      at most (p-1)/2 apart for the orders. */
  predicate CloseEnough(p: OddPrime, op: CmpOp, a: int, b: int) {
    var reach := if op == Equal || op == NotEqual then p - 1 else Half(p);
    a - b <= reach && b - a <= reach
  }

  /** Compared integers are close enough for their operator; compared strings fit their
      column, have codes below p, and do not differ in trailing NULs only. */
  predicate InRange(p: OddPrime, e: Expr, schema: TableSchema, row: Row)
    requires IsPredicate(e, schema)
  {
    match e
    case Compare(op, l, r) =>
      if IsStringComparison(l, r) then
        && FitsWidth(p, StringAt(row, StringColumn(l, r)), StringWidth(l, r, schema))
        && FitsWidth(p, StringOperand(l, r), StringWidth(l, r, schema))
        && (Trim(StringAt(row, StringColumn(l, r))) == Trim(StringOperand(l, r)) ==>
              StringAt(row, StringColumn(l, r)) == StringOperand(l, r))
      else CloseEnough(p, op, IntTerm(l, row), IntTerm(r, row))
    case And(l, r) => InRange(p, l, schema, row) && InRange(p, r, schema, row)
    case Or(l, r) => InRange(p, l, schema, row) && InRange(p, r, schema, row)
    case Not(l) => InRange(p, l, schema, row)
  }

  lemma CloseRemainders(p: OddPrime, a: int, b: int)
    requires a - b < p && b - a < p
    ensures a % p == b % p <==> a == b
    ensures (a % p - b % p) % p == if a >= b then a - b else a - b + p
  {
    SameRemainder(p, a, b);
    if Divides(p, a - b) {
      var k :| Times(k, p) == a - b;
      MultipleMagnitude(k, p);
    }
    RemainderOfDifference(p, a, b);
    var d := if a >= b then a - b else a - b + p;
    assert Times(if a >= b then 0 else -1, p) == (a - b) - d;
    SameRemainder(p, a - b, d);
    if a < b {
      SmallRemainder(p, d);
    } else {
      SmallRemainder(p, a - b);
    }
  }

  lemma RemainderOfDifference(p: OddPrime, a: int, b: int)
    ensures (a % p - b % p) % p == (a - b) % p
  {
    var k := b / p - a / p;
    assert Times(k, p) == (a % p - b % p) - (a - b);
    SameRemainder(p, a % p - b % p, a - b);
  }

  /** The modular comparison is the integer one whenever the operands, reduced or not,
      are close enough; on reduced operands exactly then. */
  lemma ZpCompareExact(p: OddPrime, op: CmpOp, a: int, b: int)
    ensures CloseEnough(p, op, a, b) ==> ZpCompare(p, op, a % p, b % p) == CompareInts(op, a, b)
    ensures 0 <= a < p && 0 <= b < p && ZpCompare(p, op, a % p, b % p) == CompareInts(op, a, b) ==>
      CloseEnough(p, op, a, b)
  {
    if a - b < p && b - a < p {
      CloseRemainders(p, a, b);
      CloseRemainders(p, b, a);
    }
  }

  /** Operands in the documented range are close enough for every operator. */
  lemma DocumentedRangeClose(p: OddPrime, op: CmpOp, a: int, b: int)
    requires 0 <= a <= Half(p) && 0 <= b <= Half(p)
    ensures CloseEnough(p, op, a, b)
  {
  }

  lemma {:induction false} ZpEvalInRange(p: OddPrime, e: Expr, schema: TableSchema, row: Row)
    requires IsPredicate(e, schema) && InRange(p, e, schema, row)
    ensures ZpEval(p, e, schema, row) == EvalPlain(e, schema, row)
  {
    match e
    case Compare(op, l, r) =>
      if IsStringComparison(l, r) {
        PaddingExact(p, StringAt(row, StringColumn(l, r)), StringOperand(l, r), StringWidth(l, r, schema));
      } else {
        ZpCompareExact(p, op, IntTerm(l, row), IntTerm(r, row));
      }
    case And(l, r) =>
      ZpEvalInRange(p, l, schema, row);
      ZpEvalInRange(p, r, schema, row);
    case Or(l, r) =>
      ZpEvalInRange(p, l, schema, row);
      ZpEvalInRange(p, r, schema, row);
    case Not(l) =>
      ZpEvalInRange(p, l, schema, row);
  }
}
