// Decrypting result batches and reconstructing rows on the client.

module Decoder {
  import opened Common
  import opened Circuit
  import opened Execution

  datatype ResultRow = ResultRow(values: map<string, int>, stringValues: map<string, string>)

  /** The first n slots; slots beyond the ciphertext read as zero. */
  function Decrypt(ct: Ciphertext, n: nat): (values: seq<int>)
    ensures |values| == n
  {
    seq(n, i requires 0 <= i < n => if i < |ct.slots| then ct.slots[i] else 0)
  }

  function DecryptMask(batch: ResultBatch): (mask: seq<int>)
    ensures |mask| == batch.rowCount
  {
    match batch.mask
    case None => seq(batch.rowCount, _ => 1)
    case Some(ct) => Decrypt(ct, batch.rowCount)
  }

  // ---- Grouping decrypted columns ----

  /** Decrypted integer columns, and per string column its character positions. */
  datatype Decrypted = Decrypted(ints: map<string, seq<int>>, strings: map<string, seq<seq<int>>>)

  /** Writes one position, growing the vector with empty entries when needed. */
  function StoreAt(positions: seq<seq<int>>, k: nat, values: seq<int>): seq<seq<int>> {
    var grown := if |positions| <= k then positions + seq(k + 1 - |positions|, _ => []) else positions;
    grown[k := values]
  }

  function AddColumn(d: Decrypted, cr: EncryptedColumn, n: nat): Decrypted {
    var values := Decrypt(cr.ciphertext, n);
    if cr.logicalType == "STRING" then
      var positions := if cr.columnName in d.strings then d.strings[cr.columnName] else [];
      d.(strings := d.strings[cr.columnName := StoreAt(positions, cr.stringPosition, values)])
    else d.(ints := d.ints[cr.columnName := values])
  }

  function DecryptFirst(columns: seq<EncryptedColumn>, n: nat, k: nat): (d: Decrypted)
    requires k <= |columns|
    ensures forall c :: c in d.ints ==> |d.ints[c]| == n
  {
    if k == 0 then Decrypted(map[], map[]) else AddColumn(DecryptFirst(columns, n, k - 1), columns[k - 1], n)
  }

  function DecryptColumns(batch: ResultBatch): Decrypted {
    DecryptFirst(batch.columns, batch.rowCount, |batch.columns|)
  }

  // ---- Rows ----

  function Prepend(s: string, r: Result<string>): Result<string> {
    if r.Ok? then Ok(s + r.value) else r
  }

  /** Characters up to the first zero or missing position; only ASCII is accepted. */
  function DecodeString(positions: seq<seq<int>>, i: nat): Result<string> {
    if positions == [] || i >= |positions[0]| || positions[0][i] == 0 then Ok("")
    else if positions[0][i] < 0 || positions[0][i] > 127 then Err(InvalidAscii)
    else Prepend([positions[0][i] as char], DecodeString(positions[1..], i))
  }

  predicate RowDecodes(d: Decrypted, i: nat) {
    forall c :: c in d.strings ==> DecodeString(d.strings[c], i).Ok?
  }

  predicate Rectangular(d: Decrypted, n: nat) {
    forall c :: c in d.ints ==> |d.ints[c]| == n
  }

  function RowAt(d: Decrypted, n: nat, i: nat): ResultRow
    requires Rectangular(d, n) && i < n && RowDecodes(d, i)
  {
    ResultRow(map c | c in d.ints :: d.ints[c][i], map c | c in d.strings :: DecodeString(d.strings[c], i).value)
  }

  predicate Selected(mask: seq<int>, i: nat) { i < |mask| && mask[i] == 1 }

  function RowResult(d: Decrypted, n: nat, i: nat): Result<ResultRow>
    requires Rectangular(d, n) && i < n
  {
    if RowDecodes(d, i) then Ok(RowAt(d, n, i)) else Err(InvalidAscii)
  }

  function AppendRow(rows: Result<seq<ResultRow>>, row: Result<ResultRow>): Result<seq<ResultRow>> {
    if rows.Err? then rows else if row.Err? then Err(row.error) else Ok(rows.value + [row.value])
  }

  /** The selected rows among the first k, in order. */
  function RowsFirst(d: Decrypted, mask: seq<int>, n: nat, k: nat): Result<seq<ResultRow>>
    requires Rectangular(d, n) && k <= n
  {
    if k == 0 then Ok([])
    else if Selected(mask, k - 1) then AppendRow(RowsFirst(d, mask, n, k - 1), RowResult(d, n, k - 1))
    else RowsFirst(d, mask, n, k - 1)
  }

  function DecodeBatch(batch: ResultBatch): Result<seq<ResultRow>> {
    RowsFirst(DecryptColumns(batch), DecryptMask(batch), batch.rowCount, batch.rowCount)
  }

  lemma {:induction false} RowsFirstFails(d: Decrypted, mask: seq<int>, n: nat, k: nat, m: nat)
    requires Rectangular(d, n) && k <= m <= n && RowsFirst(d, mask, n, k).Err?
    ensures RowsFirst(d, mask, n, m) == RowsFirst(d, mask, n, k)
    decreases m - k
  {
    if k < m {
      RowsFirstFails(d, mask, n, k + 1, m);
    }
  }

  lemma {:induction false} DecodeStringError(positions: seq<seq<int>>, i: nat)
    ensures DecodeString(positions, i).Ok? || DecodeString(positions, i) == Err(InvalidAscii)
  {
    if positions != [] {
      DecodeStringError(positions[1..], i);
    }
  }

  // ---- The decoder ----

  method DecodeStringAt(positions: seq<seq<int>>, i: nat) returns (r: Result<string>)
    ensures r == DecodeString(positions, i)
  {
    var value := "";
    assert positions[0..] == positions && forall s: string :: value + s == s;
    for k := 0 to |positions|
      invariant DecodeString(positions, i) == Prepend(value, DecodeString(positions[k..], i))
    {
      var chars := positions[k];
      assert positions[k..][0] == chars && positions[k..][1..] == positions[k + 1..];
      if i >= |chars| || chars[i] == 0 {
        assert value + "" == value;
        return Ok(value);
      }
      if chars[i] < 0 || chars[i] > 127 {
        return Err(InvalidAscii);
      }
      ghost var rest := DecodeString(positions[k + 1..], i);
      assert rest.Ok? ==> value + ([chars[i] as char] + rest.value) == value + [chars[i] as char] + rest.value;
      value := value + [chars[i] as char];
    }
    assert value + "" == value;
    r := Ok(value);
  }

  method DecodeRow(d: Decrypted, n: nat, i: nat) returns (r: Result<ResultRow>)
    requires Rectangular(d, n) && i < n
    ensures r == RowResult(d, n, i)
  {
    var values := map c | c in d.ints :: d.ints[c][i];
    var strings: map<string, string> := map[];
    var rest := d.strings.Keys;
    while rest != {}
      invariant rest <= d.strings.Keys && strings.Keys == d.strings.Keys - rest
      invariant forall c :: c in strings ==> DecodeString(d.strings[c], i) == Ok(strings[c])
      decreases rest
    {
      var c :| c in rest;
      var s := DecodeStringAt(d.strings[c], i);
      DecodeStringError(d.strings[c], i);
      if s.Err? {
        return Err(s.error);
      }
      strings := strings[c := s.value];
      rest := rest - {c};
    }
    assert strings == map c | c in d.strings :: DecodeString(d.strings[c], i).value;
    r := Ok(ResultRow(values, strings));
  }

  method Decode(batch: ResultBatch) returns (r: Result<seq<ResultRow>>)
    ensures r == DecodeBatch(batch)
  {
    var n, mask := batch.rowCount, DecryptMask(batch);
    var d := Decrypted(map[], map[]);
    for k := 0 to |batch.columns|
      invariant d == DecryptFirst(batch.columns, n, k)
    {
      d := AddColumn(d, batch.columns[k], n);
    }
    r := SelectRows(d, mask, n);
  }

  method SelectRows(d: Decrypted, mask: seq<int>, n: nat) returns (r: Result<seq<ResultRow>>)
    requires Rectangular(d, n)
    ensures r == RowsFirst(d, mask, n, n)
  {
    var rows: seq<ResultRow> := [];
    for i := 0 to n
      invariant RowsFirst(d, mask, n, i) == Ok(rows)
    {
      if Selected(mask, i) {
        var row := DecodeRow(d, n, i);
        if row.Err? {
          RowsFirstFails(d, mask, n, i + 1, n);
          return Err(row.error);
        }
        rows := rows + [row.value];
      }
    }
    r := Ok(rows);
  }
}
