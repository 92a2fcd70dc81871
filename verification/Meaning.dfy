// What a condition means, spelled out form by form, over any way to read names.

module Meaning {
  import opened Common
  import opened Ast
  import opened Catalog
  import opened Plain
  import opened JoinPlain

  /** The stored value of a column; absent integers read as 0, absent strings as "". */
  function Number(row: Row, name: string): int {
    if name !in row then 0 else match row[name]
      case IntValue(i) => i
      case StringValue(_) => 0
  }

  function Text(row: Row, name: string): string {
    if name !in row then "" else match row[name]
      case IntValue(_) => ""
      case StringValue(s) => s
  }

  /** Comparisons of integers and of a string with a literal, on either side, and
      their connectives; anything else holds of nothing. */
  predicate Means(e: Expr, number: string -> int, text: string -> string) {
    match e
    case And(l, r) => Means(l, number, text) && Means(r, number, text)
    case Or(l, r) => Means(l, number, text) || Means(r, number, text)
    case Not(l) => !Means(l, number, text)
    case Compare(op, ColumnRef(a), ColumnRef(b)) => CompareInts(op, number(a), number(b))
    case Compare(op, ColumnRef(a), IntLiteral(v)) => CompareInts(op, number(a), v)
    case Compare(op, IntLiteral(v), ColumnRef(b)) => CompareInts(op, v, number(b))
    case Compare(op, IntLiteral(v), IntLiteral(w)) => CompareInts(op, v, w)
    case Compare(op, ColumnRef(a), StringLiteral(t)) => if op == Equal then text(a) == t else text(a) != t
    case Compare(op, StringLiteral(t), ColumnRef(b)) => if op == Equal then t == text(b) else t != text(b)
    case _ => false
  }

  /** The names of a predicate, read in a row of one table. */
  ghost predicate ReadsRow(row: Row, number: string -> int, text: string -> string) {
    forall name :: number(name) == Number(row, name) && text(name) == Text(row, name)
  }

  lemma {:induction false} EvalMeans(e: Expr, schema: TableSchema, row: Row, number: string -> int,
                                     text: string -> string)
    requires IsPredicate(e, schema) && ReadsRow(row, number, text)
    ensures EvalPlain(e, schema, row) <==> Means(e, number, text)
  {
    match e
    case Compare(op, l, r) => CompareMeans(op, l, r, schema, row, number, text);
    case And(l, r) =>
      EvalMeans(l, schema, row, number, text);
      EvalMeans(r, schema, row, number, text);
    case Or(l, r) =>
      EvalMeans(l, schema, row, number, text);
      EvalMeans(r, schema, row, number, text);
    case Not(l) => EvalMeans(l, schema, row, number, text);
  }

  lemma CompareMeans(op: CmpOp, l: Expr, r: Expr, schema: TableSchema, row: Row, number: string -> int,
                     text: string -> string)
    requires IsPredicate(Compare(op, l, r), schema) && ReadsRow(row, number, text)
    ensures EvalPlain(Compare(op, l, r), schema, row) <==> Means(Compare(op, l, r), number, text)
  {
    if l.ColumnRef? {
      assert number(l.name) == IntAt(row, l.name) && text(l.name) == StringAt(row, l.name);
    }
    if r.ColumnRef? {
      assert number(r.name) == IntAt(row, r.name) && text(r.name) == StringAt(row, r.name);
    }
  }

  // ---- Pairs of rows ----

  /** A qualified name reads the row of its alias, a bare one the row of the main table
      if that has such a column. */
  function PairNumber(tables: TableMap, stmt: SelectStatement, l: Row, r: Row, name: string): int {
    Number(if IsJoin(tables, stmt) && NamesMain(tables, stmt, name) then l else r, BareName(name))
  }

  function PairText(tables: TableMap, stmt: SelectStatement, l: Row, r: Row, name: string): string {
    Text(if IsJoin(tables, stmt) && NamesMain(tables, stmt, name) then l else r, BareName(name))
  }

  ghost predicate ReadsPair(tables: TableMap, stmt: SelectStatement, l: Row, r: Row, number: string -> int,
                            text: string -> string)
  {
    forall name ::
      number(name) == PairNumber(tables, stmt, l, r, name) && text(name) == PairText(tables, stmt, l, r, name)
  }

  lemma {:induction false} PairMeans(tables: TableMap, stmt: SelectStatement, e: Expr, l: Row, r: Row,
                                     number: string -> int, text: string -> string)
    requires IsJoin(tables, stmt) && ReadsPair(tables, stmt, l, r, number, text)
    ensures Holds(tables, stmt, e, l, r) <==> Means(e, number, text)
  {
    match e
    case Compare(op, x, y) => PairCompareMeans(tables, stmt, op, x, y, l, r, number, text);
    case And(x, y) =>
      PairMeans(tables, stmt, x, l, r, number, text);
      PairMeans(tables, stmt, y, l, r, number, text);
    case Or(x, y) =>
      PairMeans(tables, stmt, x, l, r, number, text);
      PairMeans(tables, stmt, y, l, r, number, text);
    case Not(x) => PairMeans(tables, stmt, x, l, r, number, text);
    case _ =>
  }

  lemma PairCompareMeans(tables: TableMap, stmt: SelectStatement, op: CmpOp, x: Expr, y: Expr, l: Row, r: Row,
                         number: string -> int, text: string -> string)
    requires IsJoin(tables, stmt) && ReadsPair(tables, stmt, l, r, number, text)
    ensures Holds(tables, stmt, Compare(op, x, y), l, r) <==> Means(Compare(op, x, y), number, text)
  {
    if x.ColumnRef? {
      assert number(x.name) == IntNamed(tables, stmt, x.name, l, r);
      assert text(x.name) == StringNamed(tables, stmt, x.name, l, r);
    }
    if y.ColumnRef? {
      assert number(y.name) == IntNamed(tables, stmt, y.name, l, r);
      assert text(y.name) == StringNamed(tables, stmt, y.name, l, r);
    }
  }
}
