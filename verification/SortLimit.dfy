// ORDER BY and LIMIT on decrypted rows.

module SortLimit {
  import opened Common
  import opened Ast
  import opened Execution
  import opened Decoder

  /** The comparator: columns in turn, skipping those a row lacks. */
  predicate Less(orderBy: seq<OrderByColumn>, a: ResultRow, b: ResultRow) {
    if orderBy == [] then false
    else
      var c := orderBy[0].columnName;
      if c !in a.values || c !in b.values || a.values[c] == b.values[c] then Less(orderBy[1..], a, b)
      else if orderBy[0].direction == Ascending then a.values[c] < b.values[c]
      else a.values[c] > b.values[c]
  }

  predicate Tied(orderBy: seq<OrderByColumn>, a: ResultRow, b: ResultRow) {
    !Less(orderBy, a, b) && !Less(orderBy, b, a)
  }

  ghost predicate SameKeys(rows: seq<ResultRow>, keys: set<string>) {
    forall i :: 0 <= i < |rows| ==> rows[i].values.Keys == keys
  }

  /** Of the ORDER BY columns, the row has exactly those in keys. */
  predicate Carries(orderBy: seq<OrderByColumn>, row: ResultRow, keys: set<string>) {
    forall j :: 0 <= j < |orderBy| ==> (orderBy[j].columnName in row.values <==> orderBy[j].columnName in keys)
  }

  ghost predicate AllCarry(orderBy: seq<OrderByColumn>, rows: seq<ResultRow>, keys: set<string>) {
    forall i :: 0 <= i < |rows| ==> Carries(orderBy, rows[i], keys)
  }

  lemma SameKeysCarry(orderBy: seq<OrderByColumn>, rows: seq<ResultRow>, keys: set<string>)
    requires SameKeys(rows, keys)
    ensures AllCarry(orderBy, rows, keys)
  {
    forall i | 0 <= i < |rows|
      ensures Carries(orderBy, rows[i], keys)
    {
      assert rows[i].values.Keys == keys;
    }
  }

  // ---- The comparator is a strict weak order on rows that agree on the columns ----

  lemma {:induction false} LessAsymmetric(orderBy: seq<OrderByColumn>, a: ResultRow, b: ResultRow)
    requires Less(orderBy, a, b)
    ensures !Less(orderBy, b, a)
  {
    var c := orderBy[0].columnName;
    if c !in a.values || c !in b.values || a.values[c] == b.values[c] {
      LessAsymmetric(orderBy[1..], a, b);
    }
  }

  lemma {:induction false} NotLessTransitive(orderBy: seq<OrderByColumn>, keys: set<string>, a: ResultRow, b: ResultRow,
                                             c: ResultRow)
    requires Carries(orderBy, a, keys) && Carries(orderBy, b, keys) && Carries(orderBy, c, keys)
    requires !Less(orderBy, a, b) && !Less(orderBy, b, c)
    ensures !Less(orderBy, a, c)
  {
    if orderBy != [] {
      var n := orderBy[0].columnName;
      if n !in keys || (a.values[n] == b.values[n] && b.values[n] == c.values[n]) {
        NotLessTransitive(orderBy[1..], keys, a, b, c);
      }
    }
  }

  // ---- What it compares: the raw values, column by column ----

  /** Both rows have the column, and it tells them apart. */
  predicate Differs(c: OrderByColumn, a: ResultRow, b: ResultRow) {
    c.columnName in a.values && c.columnName in b.values && a.values[c.columnName] != b.values[c.columnName]
  }

  /** Both rows have the column, and its direction puts a in front of b. */
  predicate Precedes(c: OrderByColumn, a: ResultRow, b: ResultRow) {
    && c.columnName in a.values && c.columnName in b.values
    && match c.direction
       case Ascending => a.values[c.columnName] < b.values[c.columnName]
       case Descending => b.values[c.columnName] < a.values[c.columnName]
  }

  /** None of the first j columns tells the rows apart. */
  predicate AgreeOn(orderBy: seq<OrderByColumn>, j: nat, a: ResultRow, b: ResultRow)
    requires j <= |orderBy|
  {
    forall i :: 0 <= i < j ==> !Differs(orderBy[i], a, b)
  }

  ghost predicate FirstDifference(orderBy: seq<OrderByColumn>, j: nat, a: ResultRow, b: ResultRow) {
    j < |orderBy| && AgreeOn(orderBy, j, a, b) && Precedes(orderBy[j], a, b)
  }

  lemma FirstDifferenceShifts(orderBy: seq<OrderByColumn>, j: nat, a: ResultRow, b: ResultRow)
    requires orderBy != [] && !Differs(orderBy[0], a, b)
    ensures FirstDifference(orderBy[1..], j, a, b) <==> FirstDifference(orderBy, j + 1, a, b)
  {
    if FirstDifference(orderBy[1..], j, a, b) {
      assert forall i :: 0 < i < j + 1 ==> orderBy[i] == orderBy[1..][i - 1];
    }
    if FirstDifference(orderBy, j + 1, a, b) {
      assert forall i :: 0 <= i < j ==> orderBy[1..][i] == orderBy[i + 1];
    }
  }

  /** The comparator is the lexicographic order: one row is before another iff some
      ORDER BY column puts it there and every earlier one is missing in a row or has
      equal values. */
  lemma {:induction false} LessLexicographic(orderBy: seq<OrderByColumn>, a: ResultRow, b: ResultRow)
    ensures Less(orderBy, a, b) <==> exists j: nat :: FirstDifference(orderBy, j, a, b)
  {
    if orderBy != [] {
      if Differs(orderBy[0], a, b) {
        assert FirstDifference(orderBy, 0, a, b) <==> Precedes(orderBy[0], a, b);
      } else {
        LessLexicographic(orderBy[1..], a, b);
        if Less(orderBy, a, b) {
          var j: nat :| FirstDifference(orderBy[1..], j, a, b);
          FirstDifferenceShifts(orderBy, j, a, b);
        }
        if j: nat :| FirstDifference(orderBy, j, a, b) {
          FirstDifferenceShifts(orderBy, j - 1, a, b);
        }
      }
    }
  }

  /** Rows tie exactly when no column tells them apart. */
  lemma {:induction false} TiedAgree(orderBy: seq<OrderByColumn>, a: ResultRow, b: ResultRow)
    ensures Tied(orderBy, a, b) <==> AgreeOn(orderBy, |orderBy|, a, b)
  {
    if orderBy != [] && !Differs(orderBy[0], a, b) {
      TiedAgree(orderBy[1..], a, b);
      assert forall i :: 0 < i < |orderBy| ==> orderBy[i] == orderBy[1..][i - 1];
      assert forall i :: 0 <= i < |orderBy| - 1 ==> orderBy[1..][i] == orderBy[i + 1];
    }
  }

  /** "Not before" is transitive on these rows. */
  ghost predicate OrdersRows(orderBy: seq<OrderByColumn>, rows: seq<ResultRow>) {
    forall a, b, c :: a in rows && b in rows && c in rows && !Less(orderBy, a, b) && !Less(orderBy, b, c) ==>
      !Less(orderBy, a, c)
  }

  predicate NoneLacks(name: string, rows: seq<ResultRow>) {
    forall a :: a in rows ==> name in a.values
  }

  predicate OneValue(name: string, rows: seq<ResultRow>) {
    forall a, b :: a in rows && b in rows && name in a.values && name in b.values ==> a.values[name] == b.values[name]
  }

  lemma LessByOne(column: OrderByColumn, a: ResultRow, b: ResultRow)
    ensures Less([column], a, b) <==>
      && column.columnName in a.values && column.columnName in b.values
      && (if column.direction == Ascending then a.values[column.columnName] < b.values[column.columnName]
          else a.values[column.columnName] > b.values[column.columnName])
  {
    assert [column][1..] == [];
  }

  /** For one ORDER BY column, exactly: the comparator orders the rows iff none of them
      lacks the column or all that have it hold one value. */
  lemma OneColumnOrders(column: OrderByColumn, rows: seq<ResultRow>)
    ensures OrdersRows([column], rows) <==> NoneLacks(column.columnName, rows) || OneValue(column.columnName, rows)
  {
    forall a, b
      ensures Less([column], a, b) <==>
        && column.columnName in a.values && column.columnName in b.values
        && (if column.direction == Ascending then a.values[column.columnName] < b.values[column.columnName]
            else a.values[column.columnName] > b.values[column.columnName])
    {
      LessByOne(column, a, b);
    }
    if OrdersRows([column], rows) && !NoneLacks(column.columnName, rows) {
      var none :| none in rows && column.columnName !in none.values;
      forall a, b | a in rows && b in rows && column.columnName in a.values && column.columnName in b.values
        ensures a.values[column.columnName] == b.values[column.columnName]
      {
        assert !Less([column], a, none) && !Less([column], none, b);
        assert !Less([column], b, none) && !Less([column], none, a);
      }
    }
  }

  // ---- Columns that are not integers ----

  /** The ORDER BY entries on columns in keys, in their order. */
  function Present(orderBy: seq<OrderByColumn>, keys: set<string>): seq<OrderByColumn> {
    if orderBy == [] then []
    else (if orderBy[0].columnName in keys then [orderBy[0]] else []) + Present(orderBy[1..], keys)
  }

  /** The comparator sees only the columns the rows have. */
  lemma {:induction false} LessPresent(orderBy: seq<OrderByColumn>, keys: set<string>, a: ResultRow, b: ResultRow)
    requires Carries(orderBy, a, keys) && Carries(orderBy, b, keys)
    ensures Less(orderBy, a, b) == Less(Present(orderBy, keys), a, b)
  {
    if orderBy != [] {
      LessPresent(orderBy[1..], keys, a, b);
      var present := Present(orderBy, keys);
      if orderBy[0].columnName in keys {
        assert present[0] == orderBy[0] && present[1..] == Present(orderBy[1..], keys);
      } else {
        assert present == Present(orderBy[1..], keys);
      }
    }
  }

  // ---- Stable sorting ----

  /** x goes behind everything it is not strictly less than. */
  function Insert(orderBy: seq<OrderByColumn>, rows: seq<ResultRow>, x: ResultRow): seq<ResultRow> {
    if rows == [] || !Less(orderBy, x, rows[|rows| - 1]) then rows + [x]
    else Insert(orderBy, rows[..|rows| - 1], x) + [rows[|rows| - 1]]
  }

  /** std::stable_sort. */
  function StableSort(orderBy: seq<OrderByColumn>, rows: seq<ResultRow>): seq<ResultRow> {
    if rows == [] then [] else Insert(orderBy, StableSort(orderBy, rows[..|rows| - 1]), rows[|rows| - 1])
  }

  ghost predicate Sorted(orderBy: seq<OrderByColumn>, rows: seq<ResultRow>) {
    forall i, j :: 0 <= i < j < |rows| ==> !Less(orderBy, rows[j], rows[i])
  }

  /** Rows that agree on the first columns are in the order of the next one. */
  ghost predicate InColumnOrder(orderBy: seq<OrderByColumn>, rows: seq<ResultRow>) {
    forall i, j, k :: 0 <= i < j < |rows| && 0 <= k < |orderBy| && AgreeOn(orderBy, k, rows[i], rows[j]) ==>
      !Precedes(orderBy[k], rows[j], rows[i])
  }

  lemma AgreeSymmetric(orderBy: seq<OrderByColumn>, k: nat, a: ResultRow, b: ResultRow)
    requires k <= |orderBy|
    ensures AgreeOn(orderBy, k, a, b) <==> AgreeOn(orderBy, k, b, a)
  {
    assert forall i :: 0 <= i < k ==> (Differs(orderBy[i], a, b) <==> Differs(orderBy[i], b, a));
  }

  /** That is what being sorted means. */
  lemma SortedColumns(orderBy: seq<OrderByColumn>, rows: seq<ResultRow>)
    ensures Sorted(orderBy, rows) <==> InColumnOrder(orderBy, rows)
  {
    forall i, j | 0 <= i < j < |rows|
      ensures Less(orderBy, rows[j], rows[i]) <==> exists k: nat :: FirstDifference(orderBy, k, rows[j], rows[i])
    {
      LessLexicographic(orderBy, rows[j], rows[i]);
    }
    forall i, j, k | 0 <= i < j < |rows| && 0 <= k < |orderBy|
      ensures AgreeOn(orderBy, k, rows[i], rows[j]) <==> AgreeOn(orderBy, k, rows[j], rows[i])
    {
      AgreeSymmetric(orderBy, k, rows[i], rows[j]);
    }
    if Sorted(orderBy, rows) {
      forall i, j, k | 0 <= i < j < |rows| && 0 <= k < |orderBy| && AgreeOn(orderBy, k, rows[i], rows[j])
        ensures !Precedes(orderBy[k], rows[j], rows[i])
      {
        assert !FirstDifference(orderBy, k, rows[j], rows[i]);
      }
    }
  }

  /** The rows that tie with x, in their order. */
  function TiedWith(orderBy: seq<OrderByColumn>, x: ResultRow, rows: seq<ResultRow>): seq<ResultRow> {
    if rows == [] then []
    else
      var last := rows[|rows| - 1];
      TiedWith(orderBy, x, rows[..|rows| - 1]) + if Tied(orderBy, x, last) then [last] else []
  }

  ghost predicate SameClasses(orderBy: seq<OrderByColumn>, keys: set<string>, a: seq<ResultRow>, b: seq<ResultRow>) {
    forall x: ResultRow :: Carries(orderBy, x, keys) ==> TiedWith(orderBy, x, a) == TiedWith(orderBy, x, b)
  }

  /** A stable sort: ordered, and every class of tied rows keeps its order. */
  ghost predicate IsStableSort(orderBy: seq<OrderByColumn>, keys: set<string>, before: seq<ResultRow>,
                               after: seq<ResultRow>) {
    && AllCarry(orderBy, after, keys)
    && Sorted(orderBy, after)
    && multiset(after) == multiset(before)
    && SameClasses(orderBy, keys, after, before)
  }

  lemma {:induction false} InsertKeepsRows(orderBy: seq<OrderByColumn>, rows: seq<ResultRow>, x: ResultRow)
    ensures multiset(Insert(orderBy, rows, x)) == multiset(rows) + multiset{x}
  {
    if rows != [] && Less(orderBy, x, rows[|rows| - 1]) {
      assert rows == rows[..|rows| - 1] + [rows[|rows| - 1]];
      InsertKeepsRows(orderBy, rows[..|rows| - 1], x);
    }
  }

  lemma {:induction false} InsertKeys(orderBy: seq<OrderByColumn>, keys: set<string>, rows: seq<ResultRow>,
                                      x: ResultRow)
    requires AllCarry(orderBy, rows, keys) && Carries(orderBy, x, keys)
    ensures AllCarry(orderBy, Insert(orderBy, rows, x), keys)
  {
    if rows != [] && Less(orderBy, x, rows[|rows| - 1]) {
      InsertKeys(orderBy, keys, rows[..|rows| - 1], x);
    }
  }

  lemma {:induction false} InsertSorted(orderBy: seq<OrderByColumn>, keys: set<string>, rows: seq<ResultRow>,
                                        x: ResultRow)
    requires AllCarry(orderBy, rows, keys) && Carries(orderBy, x, keys) && Sorted(orderBy, rows)
    ensures Sorted(orderBy, Insert(orderBy, rows, x))
  {
    if rows == [] {
    } else if !Less(orderBy, x, rows[|rows| - 1]) {
      forall i | 0 <= i < |rows| - 1
        ensures !Less(orderBy, x, rows[i])
      {
        NotLessTransitive(orderBy, keys, x, rows[|rows| - 1], rows[i]);
      }
    } else {
      var front := rows[..|rows| - 1];
      assert rows == front + [rows[|rows| - 1]];
      InsertSorted(orderBy, keys, front, x);
      InsertKeepsRows(orderBy, front, x);
      InsertBelowLast(orderBy, front, x, rows[|rows| - 1]);
    }
  }

  lemma InsertBelowLast(orderBy: seq<OrderByColumn>, front: seq<ResultRow>, x: ResultRow, last: ResultRow)
    requires Sorted(orderBy, front + [last]) && Less(orderBy, x, last) && Sorted(orderBy, Insert(orderBy, front, x))
    requires multiset(Insert(orderBy, front, x)) == multiset(front) + multiset{x}
    ensures Sorted(orderBy, Insert(orderBy, front, x) + [last])
  {
    var inserted := Insert(orderBy, front, x);
    LessAsymmetric(orderBy, x, last);
    forall i | 0 <= i < |inserted|
      ensures !Less(orderBy, last, inserted[i])
    {
      assert inserted[i] in multiset(inserted);
      if inserted[i] != x {
        var j :| 0 <= j < |front| && front[j] == inserted[i];
        assert (front + [last])[j] == inserted[i] && (front + [last])[|front|] == last;
      }
    }
  }

  lemma TiedWithSnoc(orderBy: seq<OrderByColumn>, y: ResultRow, rows: seq<ResultRow>, x: ResultRow)
    ensures TiedWith(orderBy, y, rows + [x]) == TiedWith(orderBy, y, rows) + if Tied(orderBy, y, x) then [x] else []
  {
    assert (rows + [x])[..|rows|] == rows;
  }

  lemma TiedApart(orderBy: seq<OrderByColumn>, keys: set<string>, y: ResultRow, x: ResultRow, z: ResultRow)
    requires Carries(orderBy, x, keys) && Carries(orderBy, y, keys) && Carries(orderBy, z, keys)
    requires Less(orderBy, x, z)
    ensures !Tied(orderBy, y, x) || !Tied(orderBy, y, z)
  {
    if Tied(orderBy, y, x) && Tied(orderBy, y, z) {
      NotLessTransitive(orderBy, keys, x, y, z);
    }
  }

  lemma {:induction false} InsertTied(orderBy: seq<OrderByColumn>, keys: set<string>, rows: seq<ResultRow>,
                                      x: ResultRow, y: ResultRow)
    requires AllCarry(orderBy, rows, keys) && Carries(orderBy, x, keys) && Carries(orderBy, y, keys)
    ensures TiedWith(orderBy, y, Insert(orderBy, rows, x)) == TiedWith(orderBy, y, rows + [x])
  {
    if rows != [] && Less(orderBy, x, rows[|rows| - 1]) {
      var last := rows[|rows| - 1];
      var front := rows[..|rows| - 1];
      assert rows == front + [last];
      InsertTied(orderBy, keys, front, x, y);
      TiedApart(orderBy, keys, y, x, last);
      TiedWithSnoc(orderBy, y, Insert(orderBy, front, x), last);
      TiedWithSnoc(orderBy, y, front, x);
      TiedWithSnoc(orderBy, y, front, last);
      TiedWithSnoc(orderBy, y, rows, x);
    }
  }

  /** The sort meets its specification on rows that agree on the ORDER BY columns. */
  lemma {:induction false} StableSortCorrect(orderBy: seq<OrderByColumn>, keys: set<string>, rows: seq<ResultRow>)
    requires AllCarry(orderBy, rows, keys)
    ensures IsStableSort(orderBy, keys, rows, StableSort(orderBy, rows))
  {
    if rows != [] {
      var front, x := rows[..|rows| - 1], rows[|rows| - 1];
      var sorted := StableSort(orderBy, front);
      assert rows == front + [x];
      StableSortCorrect(orderBy, keys, front);
      InsertSorted(orderBy, keys, sorted, x);
      InsertKeys(orderBy, keys, sorted, x);
      InsertKeepsRows(orderBy, sorted, x);
      forall y: ResultRow | Carries(orderBy, y, keys)
        ensures TiedWith(orderBy, y, Insert(orderBy, sorted, x)) == TiedWith(orderBy, y, rows)
      {
        InsertTied(orderBy, keys, sorted, x, y);
        TiedWithSnoc(orderBy, y, sorted, x);
        TiedWithSnoc(orderBy, y, front, x);
      }
    }
  }

  lemma {:induction false} StableSortPresent(orderBy: seq<OrderByColumn>, keys: set<string>, rows: seq<ResultRow>)
    requires AllCarry(orderBy, rows, keys)
    ensures StableSort(orderBy, rows) == StableSort(Present(orderBy, keys), rows)
  {
    if rows != [] {
      var front, x := rows[..|rows| - 1], rows[|rows| - 1];
      StableSortPresent(orderBy, keys, front);
      StableSortCorrect(orderBy, keys, front);
      InsertPresent(orderBy, keys, StableSort(orderBy, front), x);
    }
  }

  lemma {:induction false} InsertPresent(orderBy: seq<OrderByColumn>, keys: set<string>, rows: seq<ResultRow>,
                                         x: ResultRow)
    requires AllCarry(orderBy, rows, keys) && Carries(orderBy, x, keys)
    ensures Insert(orderBy, rows, x) == Insert(Present(orderBy, keys), rows, x)
  {
    if rows != [] {
      LessPresent(orderBy, keys, x, rows[|rows| - 1]);
      InsertPresent(orderBy, keys, rows[..|rows| - 1], x);
    }
  }

  lemma {:induction false} NoOrder(rows: seq<ResultRow>)
    ensures StableSort([], rows) == rows
  {
    if rows != [] {
      NoOrder(rows[..|rows| - 1]);
      assert rows == rows[..|rows| - 1] + [rows[|rows| - 1]];
    }
  }

  // ---- The specification determines the result ----

  lemma {:induction false} TiedWithFirst(orderBy: seq<OrderByColumn>, x: ResultRow, rows: seq<ResultRow>)
    requires rows != []
    ensures TiedWith(orderBy, x, rows) ==
      (if Tied(orderBy, x, rows[0]) then [rows[0]] else []) + TiedWith(orderBy, x, rows[1..])
  {
    if |rows| == 1 {
      assert rows[..0] == [] && rows[1..] == [];
    } else {
      var front := rows[..|rows| - 1];
      TiedWithFirst(orderBy, x, front);
      assert front[1..] == rows[1..][..|rows| - 2];
      assert rows[1..][|rows| - 2] == rows[|rows| - 1];
    }
  }

  lemma {:induction false} TiedWithMembers(orderBy: seq<OrderByColumn>, x: ResultRow, rows: seq<ResultRow>,
                                           y: ResultRow)
    requires y in TiedWith(orderBy, x, rows)
    ensures y in rows
  {
    if rows != [] && y in TiedWith(orderBy, x, rows[..|rows| - 1]) {
      TiedWithMembers(orderBy, x, rows[..|rows| - 1], y);
    }
  }

  lemma {:induction false} TiedReflexive(orderBy: seq<OrderByColumn>, x: ResultRow)
    ensures Tied(orderBy, x, x)
  {
    if orderBy != [] {
      TiedReflexive(orderBy[1..], x);
    }
  }

  lemma HeadNotAbove(orderBy: seq<OrderByColumn>, keys: set<string>, a: seq<ResultRow>, b: seq<ResultRow>)
    requires a != [] && AllCarry(orderBy, a, keys) && Sorted(orderBy, b) && SameClasses(orderBy, keys, a, b)
    ensures b != [] && !Less(orderBy, a[0], b[0])
  {
    TiedReflexive(orderBy, a[0]);
    TiedWithFirst(orderBy, a[0], a);
    assert TiedWith(orderBy, a[0], a)[0] == a[0];
    TiedWithMembers(orderBy, a[0], b, a[0]);
    var k :| 0 <= k < |b| && b[k] == a[0];
  }

  /** Two ordered sequences with the same tied classes are equal, so any stable
      sort gives the result of this one. */
  lemma {:induction false} StableSortUnique(orderBy: seq<OrderByColumn>, keys: set<string>, a: seq<ResultRow>,
                                            b: seq<ResultRow>)
    requires AllCarry(orderBy, a, keys) && AllCarry(orderBy, b, keys)
    requires Sorted(orderBy, a) && Sorted(orderBy, b) && SameClasses(orderBy, keys, a, b)
    ensures a == b
  {
    if a != [] {
      HeadNotAbove(orderBy, keys, a, b);
      HeadNotAbove(orderBy, keys, b, a);
      TiedReflexive(orderBy, a[0]);
      TiedWithFirst(orderBy, a[0], a);
      TiedWithFirst(orderBy, a[0], b);
      assert TiedWith(orderBy, a[0], a)[0] == a[0] && TiedWith(orderBy, a[0], b)[0] == b[0];
      forall x: ResultRow | Carries(orderBy, x, keys)
        ensures TiedWith(orderBy, x, a[1..]) == TiedWith(orderBy, x, b[1..])
      {
        DropHead(orderBy, x, a, b);
      }
      StableSortUnique(orderBy, keys, a[1..], b[1..]);
      assert a == [a[0]] + a[1..] && b == [b[0]] + b[1..];
    } else if b != [] {
      HeadNotAbove(orderBy, keys, b, a);
    }
  }

  lemma DropHead(orderBy: seq<OrderByColumn>, x: ResultRow, a: seq<ResultRow>, b: seq<ResultRow>)
    requires a != [] && b != [] && a[0] == b[0] && TiedWith(orderBy, x, a) == TiedWith(orderBy, x, b)
    ensures TiedWith(orderBy, x, a[1..]) == TiedWith(orderBy, x, b[1..])
  {
    TiedWithFirst(orderBy, x, a);
    TiedWithFirst(orderBy, x, b);
    var k := if Tied(orderBy, x, a[0]) then 1 else 0;
    assert TiedWith(orderBy, x, a)[k..] == TiedWith(orderBy, x, a[1..]);
    assert TiedWith(orderBy, x, b)[k..] == TiedWith(orderBy, x, b[1..]);
  }

  // ---- ORDER BY with LIMIT ----

  /** A negative limit means none. */
  function Limit(rows: seq<ResultRow>, limit: int): seq<ResultRow> {
    if 0 <= limit < |rows| then rows[..limit] else rows
  }

  function SortAndLimit(rows: seq<ResultRow>, orderBy: seq<OrderByColumn>, limit: int): seq<ResultRow> {
    Limit(if orderBy == [] then rows else StableSort(orderBy, rows), limit)
  }

  lemma SortAndLimitSorts(rows: seq<ResultRow>, orderBy: seq<OrderByColumn>, limit: int)
    ensures SortAndLimit(rows, orderBy, limit) == Limit(StableSort(orderBy, rows), limit)
  {
    NoOrder(rows);
  }

  /** ORDER BY entries on columns that the rows do not have, as string columns are
      among the values the comparator looks at, do nothing. */
  lemma OrderByStringsIgnored(orderBy: seq<OrderByColumn>, keys: set<string>, rows: seq<ResultRow>, limit: int)
    requires AllCarry(orderBy, rows, keys)
    ensures SortAndLimit(rows, orderBy, limit) == SortAndLimit(rows, Present(orderBy, keys), limit)
    ensures Present(orderBy, keys) == [] ==> SortAndLimit(rows, orderBy, limit) == Limit(rows, limit)
  {
    StableSortPresent(orderBy, keys, rows);
    SortAndLimitSorts(rows, orderBy, limit);
    SortAndLimitSorts(rows, Present(orderBy, keys), limit);
  }

  /** The first min(limit, n) rows of a stable sort, no dropped row of which sorts
      strictly before a kept one. */
  ghost predicate IsTop(orderBy: seq<OrderByColumn>, keys: set<string>, before: seq<ResultRow>, limit: int,
                        sorted: seq<ResultRow>, kept: seq<ResultRow>)
  {
    && IsStableSort(orderBy, keys, before, sorted)
    && kept <= sorted
    && |kept| == (if 0 <= limit < |before| then limit else |before|)
    && forall i, j :: 0 <= i < |kept| <= j < |sorted| ==> !Less(orderBy, sorted[j], kept[i])
  }

  lemma TopRows(orderBy: seq<OrderByColumn>, keys: set<string>, rows: seq<ResultRow>, limit: int)
    requires AllCarry(orderBy, rows, keys)
    ensures IsTop(orderBy, keys, rows, limit, StableSort(orderBy, rows), SortAndLimit(rows, orderBy, limit))
    ensures InColumnOrder(orderBy, SortAndLimit(rows, orderBy, limit))
  {
    StableSortCorrect(orderBy, keys, rows);
    SortAndLimitSorts(rows, orderBy, limit);
    var sorted := StableSort(orderBy, rows);
    assert |sorted| == |multiset(sorted)| == |multiset(rows)| == |rows|;
    SortedColumns(orderBy, SortAndLimit(rows, orderBy, limit));
  }

  /** The client's rows, sorted and resized in place. */
  class ResultSet {
    var rows: seq<ResultRow>

    constructor (rows: seq<ResultRow>)
      ensures this.rows == rows
    {
      this.rows := rows;
    }

    method ApplySortAndLimit(orderBy: seq<OrderByColumn>, limit: int)
      modifies this
      ensures rows == SortAndLimit(old(rows), orderBy, limit)
      ensures forall keys :: AllCarry(orderBy, old(rows), keys) ==>
        InColumnOrder(orderBy, rows) && exists sorted :: IsTop(orderBy, keys, old(rows), limit, sorted, rows)
    {
      ghost var before := rows;
      if orderBy != [] {
        rows := StableSort(orderBy, rows);
      }
      if limit >= 0 && limit < |rows| {
        rows := rows[..limit];
      }
      forall keys | AllCarry(orderBy, before, keys)
        ensures InColumnOrder(orderBy, rows) && exists sorted :: IsTop(orderBy, keys, before, limit, sorted, rows)
      {
        TopRows(orderBy, keys, before, limit);
      }
    }
  }

  // ---- Collecting the batches ----

  function Concat(a: Result<seq<ResultRow>>, b: Result<seq<ResultRow>>): Result<seq<ResultRow>> {
    if a.Err? then a else if b.Err? then b else Ok(a.value + b.value)
  }

  /** The first k results, one after the other, or the first failure. */
  function ConcatFirst(decoded: seq<Result<seq<ResultRow>>>, k: nat): Result<seq<ResultRow>>
    requires k <= |decoded|
  {
    if k == 0 then Ok([]) else Concat(ConcatFirst(decoded, k - 1), decoded[k - 1])
  }

  lemma {:induction false} ConcatAll(decoded: seq<Result<seq<ResultRow>>>, parts: seq<seq<ResultRow>>, k: nat)
    requires |parts| == |decoded| && k <= |decoded|
    requires forall j :: 0 <= j < |decoded| ==> decoded[j] == Ok(parts[j])
    ensures ConcatFirst(decoded, k) == Ok(Flatten(parts, k))
  {
    if k > 0 {
      ConcatAll(decoded, parts, k - 1);
    }
  }

  lemma {:induction false} ConcatFails(decoded: seq<Result<seq<ResultRow>>>, k: nat, n: nat)
    requires k <= n <= |decoded| && ConcatFirst(decoded, k).Err?
    ensures ConcatFirst(decoded, n) == ConcatFirst(decoded, k)
    decreases n
  {
    if k < n {
      ConcatFails(decoded, k, n - 1);
    }
  }

  function Decoded(batches: seq<ResultBatch>): seq<Result<seq<ResultRow>>> {
    seq(|batches|, k requires 0 <= k < |batches| => DecodeBatch(batches[k]))
  }

  /** The rows of the first k batches, one batch after the other. */
  function DecodeFirst(batches: seq<ResultBatch>, k: nat): Result<seq<ResultRow>>
    requires k <= |batches|
  {
    ConcatFirst(Decoded(batches), k)
  }

  /** Decoding all batches concatenates what they decode to. */
  lemma DecodeAll(batches: seq<ResultBatch>, parts: seq<seq<ResultRow>>, k: nat)
    requires |parts| == |batches| && k <= |batches|
    requires forall j :: 0 <= j < |batches| ==> DecodeBatch(batches[j]) == Ok(parts[j])
    ensures DecodeFirst(batches, k) == Ok(Flatten(parts, k))
  {
    ConcatAll(Decoded(batches), parts, k);
  }

  /** r is what the first k batches decode to. */
  ghost predicate Collected(batches: seq<ResultBatch>, k: nat, r: Result<seq<ResultRow>>)
    requires k <= |batches|
  {
    r == DecodeFirst(batches, k)
  }

  method DecodeNext(batches: seq<ResultBatch>, k: nat, rows: seq<ResultRow>) returns (r: Result<seq<ResultRow>>)
    requires k < |batches| && Collected(batches, k, Ok(rows))
    ensures Collected(batches, k + 1, r)
    ensures r.Err? ==> Collected(batches, |batches|, r)
  {
    var decoded := Decode(batches[k]);
    r := Concat(Ok(rows), decoded);
    if r.Err? {
      ConcatFails(Decoded(batches), k + 1, |batches|);
    }
  }

  /** The client's loop over the received batches. */
  method CollectRows(batches: seq<ResultBatch>) returns (r: Result<seq<ResultRow>>)
    ensures r == DecodeFirst(batches, |batches|)
  {
    r := Ok([]);
    for k := 0 to |batches|
      invariant r.Ok? && Collected(batches, k, r)
    {
      r := DecodeNext(batches, k, r.value);
      if r.Err? {
        return;
      }
    }
  }
}
