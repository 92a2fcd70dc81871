// What the client makes of any batches, well-formed or not.

module DecodeExact {
  import opened Common
  import opened Execution
  import opened Decoder
  import opened SortLimit

  // ---- Strings ----

  /** The row spells s: a character a position, up to the first zero or missing one. */
  predicate Spells(positions: seq<seq<int>>, i: nat, s: string) {
    && |s| <= |positions|
    && (forall k :: 0 <= k < |s| ==> i < |positions[k]| && positions[k][i] == Code(s[k]) && 1 <= Code(s[k]) <= 127)
    && (|s| < |positions| ==> i >= |positions[|s|]| || positions[|s|][i] == 0)
  }

  lemma SpellsRest(positions: seq<seq<int>>, i: nat, s: string)
    requires positions != [] && i < |positions[0]| && 1 <= positions[0][i] <= 127 && s != ""
    ensures Spells(positions, i, s) <==> positions[0][i] == Code(s[0]) && Spells(positions[1..], i, s[1..])
  {
    if positions[0][i] == Code(s[0]) && Spells(positions[1..], i, s[1..]) {
      forall k | 0 < k < |s|
        ensures i < |positions[k]| && positions[k][i] == Code(s[k]) && 1 <= Code(s[k]) <= 127
      {
        assert positions[k] == positions[1..][k - 1] && s[k] == s[1..][k - 1];
      }
    }
  }

  /** A string is decoded iff the row spells it. */
  lemma {:induction false} StringExactly(positions: seq<seq<int>>, i: nat, s: string)
    ensures DecodeString(positions, i) == Ok(s) <==> Spells(positions, i, s)
  {
    if positions == [] || i >= |positions[0]| || positions[0][i] == 0 {
    } else if 1 <= positions[0][i] <= 127 && s != "" {
      StringExactly(positions[1..], i, s[1..]);
      SpellsRest(positions, i, s);
      assert s == [s[0]] + s[1..];
    }
  }

  // ---- Columns ----

  predicate IsInt(cr: EncryptedColumn, name: string) { cr.columnName == name && cr.logicalType != "STRING" }

  predicate IsChar(cr: EncryptedColumn, name: string) { cr.columnName == name && cr.logicalType == "STRING" }

  /** The j-th of the first k columns is the last of them that holds those integers. */
  predicate LastInt(columns: seq<EncryptedColumn>, k: nat, j: nat, name: string)
    requires k <= |columns|
  {
    j < k && IsInt(columns[j], name) && forall m :: j < m < k ==> !IsInt(columns[m], name)
  }

  /** The same for one character position. */
  predicate LastChar(columns: seq<EncryptedColumn>, k: nat, j: nat, name: string, position: nat)
    requires k <= |columns|
  {
    && j < k && IsChar(columns[j], name) && columns[j].stringPosition == position
    && forall m :: j < m < k && IsChar(columns[m], name) ==> columns[m].stringPosition != position
  }

  /** An integer column is there iff some column of the batch has its name; of several
      the last one counts. */
  lemma {:induction false} IntsExactly(columns: seq<EncryptedColumn>, n: nat, k: nat, name: string)
    requires k <= |columns|
    ensures name in DecryptFirst(columns, n, k).ints <==> exists j :: 0 <= j < k && IsInt(columns[j], name)
    ensures forall j :: 0 <= j < k && LastInt(columns, k, j, name) ==>
      && name in DecryptFirst(columns, n, k).ints
      && DecryptFirst(columns, n, k).ints[name] == Decrypt(columns[j].ciphertext, n)
  {
    if k > 0 {
      IntsExactly(columns, n, k - 1, name);
      forall j | 0 <= j < k && LastInt(columns, k, j, name)
        ensures name in DecryptFirst(columns, n, k).ints
        ensures DecryptFirst(columns, n, k).ints[name] == Decrypt(columns[j].ciphertext, n)
      {
        if j < k - 1 {
          assert LastInt(columns, k - 1, j, name);
        }
      }
    }
  }

  predicate NoChar(columns: seq<EncryptedColumn>, k: nat, name: string, position: nat)
    requires k <= |columns|
  {
    forall j :: 0 <= j < k && IsChar(columns[j], name) ==> columns[j].stringPosition != position
  }

  ghost predicate CharsRight(columns: seq<EncryptedColumn>, n: nat, k: nat, name: string, d: Decrypted)
    requires k <= |columns|
  {
    && (name in d.strings <==> exists j :: 0 <= j < k && IsChar(columns[j], name))
    && (name in d.strings ==>
          && (forall j :: 0 <= j < k && IsChar(columns[j], name) ==> columns[j].stringPosition < |d.strings[name]|)
          && (forall q, j :: 0 <= q < |d.strings[name]| && 0 <= j < k && LastChar(columns, k, j, name, q) ==>
                d.strings[name][q] == Decrypt(columns[j].ciphertext, n))
          && (forall q :: 0 <= q < |d.strings[name]| && NoChar(columns, k, name, q) ==> d.strings[name][q] == []))
  }

  /** d groups one column more than before. */
  predicate Next(columns: seq<EncryptedColumn>, n: nat, k: nat, before: Decrypted, d: Decrypted) {
    0 < k <= |columns| && d == AddColumn(before, columns[k - 1], n)
  }

  lemma CharAdded(columns: seq<EncryptedColumn>, n: nat, k: nat, name: string, before: Decrypted, d: Decrypted)
    requires Next(columns, n, k, before, d)
    requires CharsRight(columns, n, k - 1, name, before) && IsChar(columns[k - 1], name)
    ensures CharsRight(columns, n, k, name, d)
  {
    var position := columns[k - 1].stringPosition;
    forall q, j | 0 <= q < |d.strings[name]| && 0 <= j < k && LastChar(columns, k, j, name, q)
      ensures d.strings[name][q] == Decrypt(columns[j].ciphertext, n)
    {
      if j < k - 1 {
        assert LastChar(columns, k - 1, j, name, q) && q != position;
      }
    }
    forall q | 0 <= q < |d.strings[name]| && NoChar(columns, k, name, q)
      ensures d.strings[name][q] == []
    {
      assert q != position && NoChar(columns, k - 1, name, q);
    }
  }

  lemma OtherAdded(columns: seq<EncryptedColumn>, n: nat, k: nat, name: string, before: Decrypted, d: Decrypted)
    requires Next(columns, n, k, before, d)
    requires CharsRight(columns, n, k - 1, name, before) && !IsChar(columns[k - 1], name)
    ensures CharsRight(columns, n, k, name, d)
  {
    assert name in d.strings <==> name in before.strings;
    if name in d.strings {
      forall q, j | 0 <= q < |d.strings[name]| && 0 <= j < k && LastChar(columns, k, j, name, q)
        ensures d.strings[name][q] == Decrypt(columns[j].ciphertext, n)
      {
        assert LastChar(columns, k - 1, j, name, q);
      }
      forall q | 0 <= q < |d.strings[name]| && NoChar(columns, k, name, q)
        ensures d.strings[name][q] == []
      {
        assert NoChar(columns, k - 1, name, q);
      }
    }
  }

  /** A string column is there iff some column of the batch has its name; each of its
      positions holds the last column for it, or nothing when there is none. */
  lemma {:induction false} CharsExactly(columns: seq<EncryptedColumn>, n: nat, k: nat, name: string)
    requires k <= |columns|
    ensures CharsRight(columns, n, k, name, DecryptFirst(columns, n, k))
  {
    if k > 0 {
      CharsExactly(columns, n, k - 1, name);
      if IsChar(columns[k - 1], name) {
        CharAdded(columns, n, k, name, DecryptFirst(columns, n, k - 1), DecryptFirst(columns, n, k));
      } else {
        OtherAdded(columns, n, k, name, DecryptFirst(columns, n, k - 1), DecryptFirst(columns, n, k));
      }
    }
  }

  // ---- Rows ----

  /** A row is selected by a mask slot that is 1 - no other residue - or without a mask. */
  predicate MaskOne(batch: ResultBatch, i: nat) {
    match batch.mask
    case None => true
    case Some(ct) => i < |ct.slots| && ct.slots[i] == 1
  }

  lemma SelectedExactly(batch: ResultBatch, i: nat)
    requires i < batch.rowCount
    ensures Selected(DecryptMask(batch), i) <==> MaskOne(batch, i)
  {
  }

  /** Positions of the selected rows among the first k, in order. */
  ghost predicate Picks(batch: ResultBatch, k: nat, picked: seq<nat>) {
    && (forall a, b :: 0 <= a < b < |picked| ==> picked[a] < picked[b])
    && forall i: nat :: i in picked <==> i < k && MaskOne(batch, i)
  }

  predicate AllDecode(batch: ResultBatch, d: Decrypted, k: nat) {
    forall i :: 0 <= i < k && MaskOne(batch, i) ==> RowDecodes(d, i)
  }

  lemma PicksNext(batch: ResultBatch, k: nat, picked: seq<nat>)
    requires Picks(batch, k, picked)
    ensures MaskOne(batch, k) ==> Picks(batch, k + 1, picked + [k])
    ensures !MaskOne(batch, k) ==> Picks(batch, k + 1, picked)
  {
    if MaskOne(batch, k) {
      forall a, b | 0 <= a < b < |picked + [k]|
        ensures (picked + [k])[a] < (picked + [k])[b]
      {
        assert picked[a] in picked;
      }
    }
  }

  lemma {:induction false} RowsExactly(batch: ResultBatch, d: Decrypted, k: nat) returns (picked: seq<nat>)
    requires Rectangular(d, batch.rowCount) && k <= batch.rowCount
    ensures Picks(batch, k, picked)
    ensures RowsAre(batch, d, k, picked, RowsFirst(d, DecryptMask(batch), batch.rowCount, k))
  {
    if k == 0 {
      picked := [];
    } else {
      var before := RowsExactly(batch, d, k - 1);
      picked := RowsGrow(batch, d, k - 1, before, RowsFirst(d, DecryptMask(batch), batch.rowCount, k - 1),
                         RowsFirst(d, DecryptMask(batch), batch.rowCount, k));
    }
  }

  lemma RowsGrow(batch: ResultBatch, d: Decrypted, k: nat, picked: seq<nat>, rows: Result<seq<ResultRow>>,
                 longer: Result<seq<ResultRow>>) returns (next: seq<nat>)
    requires Rectangular(d, batch.rowCount) && k < batch.rowCount
    requires Picks(batch, k, picked) && RowsAre(batch, d, k, picked, rows)
    requires longer ==
      if Selected(DecryptMask(batch), k) then AppendRow(rows, RowResult(d, batch.rowCount, k)) else rows
    ensures Picks(batch, k + 1, next) && RowsAre(batch, d, k + 1, next, longer)
  {
    SelectedExactly(batch, k);
    PicksNext(batch, k, picked);
    RowsNext(batch, d, k, picked, rows);
    next := if MaskOne(batch, k) then picked + [k] else picked;
  }

  /** The picked rows, unless one of them does not decode. */
  ghost predicate RowsAre(batch: ResultBatch, d: Decrypted, k: nat, picked: seq<nat>, rows: Result<seq<ResultRow>>) {
    && (rows.Ok? <==> AllDecode(batch, d, k))
    && (rows.Ok? ==>
          && |rows.value| == |picked|
          && forall j :: 0 <= j < |picked| ==> RowIs(d, batch.rowCount, picked[j], rows.value[j]))
  }

  lemma RowsNext(batch: ResultBatch, d: Decrypted, k: nat, picked: seq<nat>, rows: Result<seq<ResultRow>>)
    requires Rectangular(d, batch.rowCount) && k < batch.rowCount && RowsAre(batch, d, k, picked, rows)
    ensures MaskOne(batch, k) ==>
      RowsAre(batch, d, k + 1, picked + [k], AppendRow(rows, RowResult(d, batch.rowCount, k)))
    ensures !MaskOne(batch, k) ==> RowsAre(batch, d, k + 1, picked, rows)
  {
    assert AllDecode(batch, d, k + 1) <==> AllDecode(batch, d, k) && (MaskOne(batch, k) ==> RowDecodes(d, k));
    if RowDecodes(d, k) {
      assert RowIs(d, batch.rowCount, k, RowAt(d, batch.rowCount, k));
    }
  }

  /** Row i of the decrypted columns: every integer column with its value, every string
      column with the string it spells. */
  ghost predicate RowIs(d: Decrypted, n: nat, i: nat, row: ResultRow) {
    && i < n && Rectangular(d, n)
    && row.values.Keys == d.ints.Keys && row.stringValues.Keys == d.strings.Keys
    && (forall c :: c in d.ints ==> row.values[c] == d.ints[c][i])
    && forall c :: c in d.strings ==> DecodeString(d.strings[c], i) == Ok(row.stringValues[c])
  }

  /** A batch decodes iff every selected row does, and then to exactly those rows, in
      their order. */
  lemma BatchExactly(batch: ResultBatch) returns (picked: seq<nat>)
    ensures Picks(batch, batch.rowCount, picked)
    ensures DecodeBatch(batch).Ok? <==> AllDecode(batch, DecryptColumns(batch), batch.rowCount)
    ensures DecodeBatch(batch).Ok? ==>
      && |DecodeBatch(batch).value| == |picked|
      && forall j :: 0 <= j < |picked| ==>
           RowIs(DecryptColumns(batch), batch.rowCount, picked[j], DecodeBatch(batch).value[j])
  {
    picked := RowsExactly(batch, DecryptColumns(batch), batch.rowCount);
  }

  // ---- All batches ----

  /** The first of the results that failed. */
  predicate FirstFailure(decoded: seq<Result<seq<ResultRow>>>, j: nat) {
    j < |decoded| && decoded[j].Err? && forall i :: 0 <= i < j ==> decoded[i].Ok?
  }

  function Parts(decoded: seq<Result<seq<ResultRow>>>): (parts: seq<seq<ResultRow>>)
    requires forall j :: 0 <= j < |decoded| ==> decoded[j].Ok?
    ensures |parts| == |decoded| && forall j :: 0 <= j < |decoded| ==> decoded[j] == Ok(parts[j])
  {
    seq(|decoded|, j requires 0 <= j < |decoded| && decoded[j].Ok? => decoded[j].value)
  }

  lemma {:induction false} ConcatStops(decoded: seq<Result<seq<ResultRow>>>, k: nat, j: nat)
    requires j < k <= |decoded| && FirstFailure(decoded, j)
    ensures ConcatFirst(decoded, k) == Err(decoded[j].error)
  {
    if j < k - 1 {
      ConcatStops(decoded, k - 1, j);
    } else {
      var front := decoded[..j];
      ConcatAll(front, Parts(front), j);
      ConcatPrefix(decoded, front, j);
    }
  }

  lemma {:induction false} ConcatPrefix(a: seq<Result<seq<ResultRow>>>, b: seq<Result<seq<ResultRow>>>, k: nat)
    requires k <= |a| && k <= |b| && a[..k] == b[..k]
    ensures ConcatFirst(a, k) == ConcatFirst(b, k)
  {
    if k > 0 {
      assert a[k - 1] == a[..k][k - 1] == b[..k][k - 1];
      assert a[..k - 1] == a[..k][..k - 1] == b[..k][..k - 1] == b[..k - 1];
      ConcatPrefix(a, b, k - 1);
    }
  }

  /** Collecting the batches gives all their rows, one batch after the other, or, if
      some do not decode, the first failure. */
  lemma CollectExactly(batches: seq<ResultBatch>)
    ensures
      var decoded := Decoded(batches);
      if forall k :: 0 <= k < |decoded| ==> decoded[k].Ok? then
        DecodeFirst(batches, |batches|) == Ok(Flatten(Parts(decoded), |decoded|))
      else
        exists j: nat :: FirstFailure(decoded, j) && DecodeFirst(batches, |batches|) == Err(decoded[j].error)
  {
    var decoded := Decoded(batches);
    if forall k :: 0 <= k < |decoded| ==> decoded[k].Ok? {
      ConcatAll(decoded, Parts(decoded), |decoded|);
    } else {
      var j := FailsFirst(decoded, |decoded|);
      ConcatStops(decoded, |decoded|, j);
    }
  }

  lemma {:induction false} FailsFirst(decoded: seq<Result<seq<ResultRow>>>, k: nat) returns (j: nat)
    requires k <= |decoded| && exists i :: 0 <= i < k && decoded[i].Err?
    ensures FirstFailure(decoded, j)
  {
    if i :| 0 <= i < k - 1 && decoded[i].Err? {
      j := FailsFirst(decoded, k - 1);
    } else {
      j := k - 1;
    }
  }
}
