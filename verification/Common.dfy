// Results, 32-bit arithmetic and dotted names shared by every stage.

module Common {

  datatype Option<+T> = None | Some(value: T)

  /** Why a stage gives up. Message texts are not modelled. */
  datatype Error =
    | SyntaxError
    | IntegerOverflow            // signed overflow while accumulating digits
    | SemanticError
    | TableNotFound
    | ColumnNotFound
    | StrayStringLiteral         // a string literal outside a comparison
    | UnsupportedJoin
    | ValidationError
    | NodeIndexOutOfRange
    | LiteralNotFound
    | EmptyStringWidth
    | EmptyCiphertext
    | StackExhausted             // a recursion deeper than the call stack
    | MissingColumn
    | JoinNotQualified
    | JoinChunkSize
    | InvalidAscii
    | ServerRefused              // an error frame, or an unsuccessful response
    | ConnectionBroken           // closed early, or a frame of an unexpected kind

  datatype Result<+T> = Ok(value: T) | Err(error: Error) {
    predicate IsFailure() { Err? }

    function PropagateFailure<U>(): Result<U>
      requires Err?
    {
      Err(error)
    }

    function Extract(): T
      requires Ok?
    {
      value
    }
  }

  /** The first k parts, one after the other. */
  function Flatten<T>(parts: seq<seq<T>>, k: nat): seq<T>
    requires k <= |parts|
  {
    if k == 0 then [] else Flatten(parts, k - 1) + parts[k - 1]
  }

  lemma {:induction false} FlattenSingles<T>(parts: seq<seq<T>>, items: seq<T>, k: nat)
    requires |parts| == |items| && forall j :: 0 <= j < |items| ==> parts[j] == [items[j]]
    requires k <= |items|
    ensures Flatten(parts, k) == items[..k]
  {
    if k > 0 {
      FlattenSingles(parts, items, k - 1);
      assert items[..k] == items[..k - 1] + [items[k - 1]];
    }
  }

  // ---- 32-bit unsigned integers ----

  type uint32 = x: int | 0 <= x < 0x1_0000_0000

  const UINT32_MAX: uint32 := 0xFFFF_FFFF

  /** static_cast<uint32_t>. */
  function ToU32(x: nat): uint32 { if x < 0x1_0000_0000 then x else x % 0x1_0000_0000 }

  lemma WrapIncrement(x: nat, k: nat)
    ensures ToU32(ToU32(x) + k) == ToU32(x + k)
  {
  }

  // ---- Dotted names ----

  /** Position of the first dot, or the length when there is none. */
  function DotAt(s: string): (d: nat)
    ensures d <= |s|
    ensures forall i :: 0 <= i < d ==> s[i] != '.'
    ensures d < |s| ==> s[d] == '.'
  {
    if s == [] || s[0] == '.' then 0 else 1 + DotAt(s[1..])
  }

  predicate Qualified(s: string) { DotAt(s) < |s| }

  function AliasPart(s: string): string { s[..DotAt(s)] }

  function BareName(s: string): string {
    if Qualified(s) then s[DotAt(s) + 1..] else s
  }

  lemma SplitAround(s: string, d: nat)
    requires d < |s|
    ensures s == s[..d] + [s[d]] + s[d + 1..]
  {
  }

  /** A qualified name is its alias, a dot and its bare name. */
  lemma DottedName(s: string)
    requires Qualified(s)
    ensures s == AliasPart(s) + "." + BareName(s)
  {
    SplitAround(s, DotAt(s));
  }

  /** The code C++ reads from a char. */
  function Code(c: char): nat { c as int }
}
