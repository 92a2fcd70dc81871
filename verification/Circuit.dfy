// Expressions the server evaluates over ciphertexts, slot by slot.
// A ciphertext is an ideal box: encrypting v and decrypting it gives v mod p.

module Circuit {
  import opened Common
  import opened PrimeField
  import opened Masks

  datatype Ciphertext = Sealed(slots: seq<int>)

  /** One value broadcast to every slot. */
  function EncryptScalar(p: OddPrime, slotCount: nat, v: int): Ciphertext {
    Sealed(seq(slotCount, _ => v % p))
  }

  /** A stored column: a plain one, or one character position of a string column. */
  datatype PhysicalColumn =
    | Plain(name: string)
    | CharAt(name: string, position: nat)
    | AliasedCharAt(alias: string, name: string, position: nat)

  type Columns = map<PhysicalColumn, Ciphertext>

  datatype Circuit =
    | Column(column: PhysicalColumn)
    | Literal(ciphertext: Ciphertext)
    | EqualTo(left: Circuit, right: Circuit)
    | Greater(left: Circuit, right: Circuit)
    | Less(left: Circuit, right: Circuit)
    | Conj(left: Circuit, right: Circuit)
    | Disj(left: Circuit, right: Circuit)
    | Negation(left: Circuit)

  /** Every ciphertext the circuit reads exists and fills at least n slots. */
  predicate Evaluable(c: Circuit, columns: Columns, n: nat) {
    match c
    case Column(column) => column in columns && n <= |columns[column].slots|
    case Literal(ct) => n <= |ct.slots|
    case Negation(l) => Evaluable(l, columns, n)
    case EqualTo(l, r) => Evaluable(l, columns, n) && Evaluable(r, columns, n)
    case Greater(l, r) => Evaluable(l, columns, n) && Evaluable(r, columns, n)
    case Less(l, r) => Evaluable(l, columns, n) && Evaluable(r, columns, n)
    case Conj(l, r) => Evaluable(l, columns, n) && Evaluable(r, columns, n)
    case Disj(l, r) => Evaluable(l, columns, n) && Evaluable(r, columns, n)
  }

  function SlotValue(p: OddPrime, c: Circuit, columns: Columns, n: nat, i: nat): int
    requires Evaluable(c, columns, n) && i < n
  {
    match c
    case Column(column) => columns[column].slots[i]
    case Literal(ct) => ct.slots[i]
    case EqualTo(l, r) => EqMask(p, SlotValue(p, l, columns, n, i), SlotValue(p, r, columns, n, i))
    case Greater(l, r) => GtMask(p, SlotValue(p, l, columns, n, i), SlotValue(p, r, columns, n, i))
    case Less(l, r) => LtMask(p, SlotValue(p, l, columns, n, i), SlotValue(p, r, columns, n, i))
    case Conj(l, r) => AndMask(p, SlotValue(p, l, columns, n, i), SlotValue(p, r, columns, n, i))
    case Disj(l, r) => OrMask(p, SlotValue(p, l, columns, n, i), SlotValue(p, r, columns, n, i))
    case Negation(l) => NotMask(p, SlotValue(p, l, columns, n, i))
  }

  /** The stored columns a circuit reads. */
  function ColumnsRead(c: Circuit): set<PhysicalColumn> {
    match c
    case Column(column) => {column}
    case Literal(_) => {}
    case Negation(l) => ColumnsRead(l)
    case EqualTo(l, r) => ColumnsRead(l) + ColumnsRead(r)
    case Greater(l, r) => ColumnsRead(l) + ColumnsRead(r)
    case Less(l, r) => ColumnsRead(l) + ColumnsRead(r)
    case Conj(l, r) => ColumnsRead(l) + ColumnsRead(r)
    case Disj(l, r) => ColumnsRead(l) + ColumnsRead(r)
  }

  /** Evaluating over a whole batch of n rows. */
  function Evaluate(p: OddPrime, c: Circuit, columns: Columns, n: nat): Result<Ciphertext> {
    if Evaluable(c, columns, n) then
      Ok(Sealed(seq(n, i requires 0 <= i < n => SlotValue(p, c, columns, n, i))))
    else
      Err(MissingColumn)
  }

  // ---- More columns change nothing ----

  ghost predicate Includes(a: Columns, b: Columns) {
    forall x :: x in a ==> x in b && b[x] == a[x]
  }

  lemma {:induction false} EvaluateMore(p: OddPrime, c: Circuit, a: Columns, b: Columns, n: nat, i: nat)
    requires Includes(a, b) && Evaluable(c, a, n) && i < n
    ensures Evaluable(c, b, n) && SlotValue(p, c, b, n, i) == SlotValue(p, c, a, n, i)
  {
    match c
    case Column(_) =>
    case Literal(_) =>
    case Negation(l) => EvaluateMore(p, l, a, b, n, i);
    case EqualTo(l, r) => EvaluateMore(p, l, a, b, n, i); EvaluateMore(p, r, a, b, n, i);
    case Greater(l, r) => EvaluateMore(p, l, a, b, n, i); EvaluateMore(p, r, a, b, n, i);
    case Less(l, r) => EvaluateMore(p, l, a, b, n, i); EvaluateMore(p, r, a, b, n, i);
    case Conj(l, r) => EvaluateMore(p, l, a, b, n, i); EvaluateMore(p, r, a, b, n, i);
    case Disj(l, r) => EvaluateMore(p, l, a, b, n, i); EvaluateMore(p, r, a, b, n, i);
  }

  // ---- Balanced conjunction ----

  /** The balanced AND of cs[begin..end). */
  function Combine(cs: seq<Circuit>, begin: nat, end: nat): Circuit
    requires begin < end <= |cs|
    decreases end - begin
  {
    if end - begin == 1 then cs[begin]
    else
      var middle := begin + (end - begin) / 2;
      Conj(Combine(cs, begin, middle), Combine(cs, middle, end))
  }

  lemma {:induction false} CombineEvaluable(cs: seq<Circuit>, begin: nat, end: nat, columns: Columns, n: nat)
    requires begin < end <= |cs|
    ensures Evaluable(Combine(cs, begin, end), columns, n)
      <==> forall k :: begin <= k < end ==> Evaluable(cs[k], columns, n)
    decreases end - begin
  {
    if end - begin > 1 {
      var middle := begin + (end - begin) / 2;
      CombineEvaluable(cs, begin, middle, columns, n);
      CombineEvaluable(cs, middle, end, columns, n);
    }
  }

  lemma {:induction false} CombineReads(cs: seq<Circuit>, begin: nat, end: nat, column: PhysicalColumn)
    requires begin < end <= |cs| && column in ColumnsRead(Combine(cs, begin, end))
    ensures exists k :: begin <= k < end && column in ColumnsRead(cs[k])
    decreases end - begin
  {
    if end - begin > 1 {
      var middle := begin + (end - begin) / 2;
      if column in ColumnsRead(Combine(cs, begin, middle)) {
        CombineReads(cs, begin, middle, column);
      } else {
        CombineReads(cs, middle, end, column);
      }
    }
  }

  /** On masks, the balanced tree is the AND of all its leaves. */
  lemma {:induction false} CombineIsConjunction(p: OddPrime, cs: seq<Circuit>, begin: nat, end: nat,
                                                columns: Columns, n: nat, i: nat, bits: seq<bool>)
    requires begin < end <= |cs| == |bits| && i < n
    requires forall k :: begin <= k < end ==> Evaluable(cs[k], columns, n)
    requires forall k :: begin <= k < end ==> SlotValue(p, cs[k], columns, n, i) == Bit(bits[k])
    ensures Evaluable(Combine(cs, begin, end), columns, n)
    ensures SlotValue(p, Combine(cs, begin, end), columns, n, i) == Bit(forall k :: begin <= k < end ==> bits[k])
    decreases end - begin
  {
    CombineEvaluable(cs, begin, end, columns, n);
    if end - begin > 1 {
      var middle := begin + (end - begin) / 2;
      CombineIsConjunction(p, cs, begin, middle, columns, n, i, bits);
      CombineIsConjunction(p, cs, middle, end, columns, n, i, bits);
      ConnectivesOnBits(p, forall k :: begin <= k < middle ==> bits[k], forall k :: middle <= k < end ==> bits[k]);
    }
  }

  // ---- Multiplicative depth ----

  /** The least h with n <= 2^h. */
  function CeilLog2(n: nat): nat
    requires n > 0
  {
    if n == 1 then 0 else 1 + CeilLog2((n + 1) / 2)
  }

  function Max(a: nat, b: nat): nat { if a < b then b else a }

  /** Multiplications on the longest path: raising to p-1 by repeated squaring
      costs ceil(log2(p-1)), AND and OR cost one, NOT and sums cost nothing. */
  function Depth(p: OddPrime, c: Circuit): nat {
    match c
    case Column(_) => 0
    case Literal(_) => 0
    case EqualTo(l, r) => CeilLog2(p - 1) + Max(Depth(p, l), Depth(p, r))
    case Greater(l, r) => CeilLog2(p - 1) + Max(Depth(p, l), Depth(p, r))
    case Less(l, r) => CeilLog2(p - 1) + Max(Depth(p, l), Depth(p, r))
    case Conj(l, r) => 1 + Max(Depth(p, l), Depth(p, r))
    case Disj(l, r) => 1 + Max(Depth(p, l), Depth(p, r))
    case Negation(l) => Depth(p, l)
  }

  lemma {:induction false} CeilLog2Exact(n: nat, h: nat)
    requires n > 0
    ensures CeilLog2(n) <= h <==> n <= Pow(2, h)
  {
    PowPositive(h);
    if n > 1 {
      if h > 0 {
        CeilLog2Exact((n + 1) / 2, h - 1);
      }
    }
  }

  lemma {:induction false} PowPositive(h: nat)
    ensures Pow(2, h) >= 1
  {
    if h > 0 {
      PowPositive(h - 1);
    }
  }

  lemma {:induction false} CeilLog2Monotone(m: nat, n: nat)
    requires 0 < m <= n
    ensures CeilLog2(m) <= CeilLog2(n)
  {
    if m > 1 {
      CeilLog2Monotone((m + 1) / 2, (n + 1) / 2);
    }
  }

  lemma HalvesOf(begin: nat, middle: nat, end: nat)
    requires begin + 1 < end && middle == begin + (end - begin) / 2
    ensures CeilLog2(end - begin) == 1 + CeilLog2(end - middle)
  {
    assert end - middle == (end - begin + 1) / 2;
  }

  /** The balanced AND adds exactly ceil(log2(count)) to leaves of equal depth. */
  lemma {:induction false} CombineDepth(p: OddPrime, cs: seq<Circuit>, begin: nat, end: nat, leaf: nat)
    requires begin < end <= |cs|
    requires forall k :: begin <= k < end ==> Depth(p, cs[k]) == leaf
    ensures Depth(p, Combine(cs, begin, end)) == leaf + CeilLog2(end - begin)
    decreases end - begin
  {
    if end - begin > 1 {
      var middle := begin + (end - begin) / 2;
      CombineDepth(p, cs, begin, middle, leaf);
      CombineDepth(p, cs, middle, end, leaf);
      CeilLog2Monotone(middle - begin, end - middle);
      HalvesOf(begin, middle, end);
    }
  }
}
