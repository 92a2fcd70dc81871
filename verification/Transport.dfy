// Framed messages over a byte stream that fragments reads and writes, and the
// session that sends a query and receives its batches.

module Transport {
  import opened Common
  import opened Package
  import opened Execution

  type byte = x: int | 0 <= x < 256

  // ---- The stream ----

  /** One direction of a connection: bytes written and not yet read. A reliable
      stream fails no write, and no read while bytes are left; both transfer as many
      bytes as they like. */
  class Channel {
    const reliable: bool
    var inFlight: seq<byte>

    constructor (reliable: bool)
      ensures this.reliable == reliable && inFlight == []
    {
      this.reliable, inFlight := reliable, [];
    }

    method WriteSome(data: seq<byte>) returns (n: int)
      requires data != []
      modifies this
      ensures n <= |data|
      ensures n > 0 ==> inFlight == old(inFlight) + data[..n]
      ensures n <= 0 ==> inFlight == old(inFlight)
      ensures reliable ==> n > 0
    {
      n :| n <= |data| && (reliable ==> n > 0);
      if n > 0 {
        inFlight := inFlight + data[..n];
      }
    }

    /** Nothing read means that the connection is closed. */
    method ReadSome(max: nat) returns (data: seq<byte>)
      requires max > 0
      modifies this
      ensures |data| <= max && data + inFlight == old(inFlight)
      ensures reliable && old(inFlight) != [] ==> data != []
    {
      var n: nat :| n <= max && n <= |inFlight| && (reliable && inFlight != [] ==> n > 0);
      data := inFlight[..n];
      inFlight := inFlight[n..];
    }
  }

  /** Some of the data has been written, possibly all. */
  predicate PartlyWritten(before: seq<byte>, after: seq<byte>, data: seq<byte>) {
    before <= after && after <= before + data
  }

  method WriteBytes(ch: Channel, data: seq<byte>) returns (ok: bool)
    modifies ch
    ensures ok ==> ch.inFlight == old(ch.inFlight) + data
    ensures PartlyWritten(old(ch.inFlight), ch.inFlight, data)
    ensures ch.reliable ==> ok
  {
    var sent := 0;
    while sent < |data|
      invariant 0 <= sent <= |data| && ch.inFlight == old(ch.inFlight) + data[..sent]
    {
      var n := ch.WriteSome(data[sent..]);
      if n <= 0 {
        return false;
      }
      assert data[..sent + n] == data[..sent] + data[sent..][..n];
      sent := sent + n;
    }
    assert data[..|data|] == data;
    ok := true;
  }

  method ReadBytes(ch: Channel, len: nat) returns (r: Option<seq<byte>>)
    modifies ch
    ensures r.Some? ==> |r.value| == len && r.value + ch.inFlight == old(ch.inFlight)
    ensures ch.reliable ==> (r.Some? <==> len <= |old(ch.inFlight)|)
  {
    var data: seq<byte> := [];
    while |data| < len
      invariant |data| <= len && data + ch.inFlight == old(ch.inFlight)
      decreases len - |data|
    {
      var got := ch.ReadSome(len - |data|);
      if got == [] {
        return None;
      }
      data := data + got;
    }
    r := Some(data);
  }

  // ---- Big-endian integers ----

  /** Four bytes of a 32-bit value, most significant first. */
  function EncodeU32(v: uint32): (s: seq<byte>)
    ensures |s| == 4
  {
    var high, low := v / 0x1_0000, v % 0x1_0000;
    [high / 0x100, high % 0x100, low / 0x100, low % 0x100]
  }

  function Word(a: int, b: int): int { a * 0x100 + b }

  function DecodeU32(s: seq<byte>): uint32
    requires |s| == 4
  {
    Word(s[0], s[1]) * 0x1_0000 + Word(s[2], s[3])
  }

  lemma EncodedU32(v: uint32)
    ensures DecodeU32(EncodeU32(v)) == v
  {
    var high, low := v / 0x1_0000, v % 0x1_0000;
    assert Word(high / 0x100, high % 0x100) == high;
    assert Word(low / 0x100, low % 0x100) == low;
  }

  lemma WordParts(a: int, b: int)
    requires 0 <= b < 0x100
    ensures Word(a, b) / 0x100 == a && Word(a, b) % 0x100 == b
  {
  }

  lemma DecodedU32(s: seq<byte>)
    requires |s| == 4
    ensures EncodeU32(DecodeU32(s)) == s
  {
    var high, low := Word(s[0], s[1]), Word(s[2], s[3]);
    WordParts(s[0], s[1]);
    WordParts(s[2], s[3]);
    assert DecodeU32(s) / 0x1_0000 == high && DecodeU32(s) % 0x1_0000 == low;
  }

  /** htonl and ntohl undo each other, in both directions. */
  lemma U32RoundTrip(v: uint32, s: seq<byte>)
    requires |s| == 4
    ensures DecodeU32(EncodeU32(v)) == v && EncodeU32(DecodeU32(s)) == s
  {
    EncodedU32(v);
    DecodedU32(s);
  }

  lemma ByByte(x: int, q: int, r: int)
    requires x == q * 0x100 + r && 0 <= r < 0x100
    ensures x / 0x100 == q && x % 0x100 == r
  {
  }

  lemma ByThreeBytes(x: int, q: int, r: int)
    requires x == q * 0x100_0000 + r && 0 <= r < 0x100_0000
    ensures x / 0x100_0000 == q
  {
  }

  /** Most significant byte first. */
  lemma BigEndian(v: uint32)
    ensures EncodeU32(v) == [v / 0x100_0000, v / 0x1_0000 % 0x100, v / 0x100 % 0x100, v % 0x100]
  {
    var a, b := v / 0x1_0000 / 0x100, v / 0x1_0000 % 0x100;
    var c, d := v % 0x1_0000 / 0x100, v % 0x1_0000 % 0x100;
    ByByte(v, a * 0x1_0000 + b * 0x100 + c, d);
    ByByte(a * 0x1_0000 + b * 0x100 + c, a * 0x100 + b, c);
    ByThreeBytes(v, a, b * 0x1_0000 + c * 0x100 + d);
  }

  // ---- Frames ----

  const QUERY_REQUEST: uint32 := 1
  const QUERY_RESPONSE: uint32 := 2
  const RESULT_BATCH: uint32 := 3
  const ERROR: uint32 := 4

  datatype Frame = Frame(kind: uint32, payload: seq<byte>)

  /** The length field is the payload size cut to 32 bits. */
  function FrameBytes(f: Frame): seq<byte> {
    EncodeU32(f.kind) + (EncodeU32(ToU32(|f.payload|)) + f.payload)
  }

  datatype Received<T> = Received(value: T, rest: seq<byte>)

  function ReadFrame(s: seq<byte>): Option<Received<Frame>> {
    if |s| < 8 then None
    else
      var len := DecodeU32(s[4..8]);
      if |s| - 8 < len then None else Some(Received(Frame(DecodeU32(s[..4]), s[8..8 + len]), s[8 + len..]))
  }

  lemma FrameHeader(f: Frame, rest: seq<byte>)
    ensures
      var s := FrameBytes(f) + rest;
      && |s| >= 8 && DecodeU32(s[..4]) == f.kind && DecodeU32(s[4..8]) == ToU32(|f.payload|)
      && s[8..] == f.payload + rest
  {
    var s, len := FrameBytes(f) + rest, ToU32(|f.payload|);
    EncodedU32(f.kind);
    EncodedU32(len);
    assert s[..4] == EncodeU32(f.kind);
    assert s[4..8] == EncodeU32(len);
    assert s[8..] == f.payload + rest;
  }

  /** On the wire: the type, the payload's length cut to 32 bits, both most significant
      byte first, then the payload. */
  lemma FrameLayout(f: Frame)
    ensures
      var s, len := FrameBytes(f), |f.payload| % 0x1_0000_0000;
      && |s| == 8 + |f.payload| && s[8..] == f.payload
      && s[..4] == [f.kind / 0x100_0000, f.kind / 0x1_0000 % 0x100, f.kind / 0x100 % 0x100, f.kind % 0x100]
      && s[4..8] == [len / 0x100_0000, len / 0x1_0000 % 0x100, len / 0x100 % 0x100, len % 0x100]
  {
    var s, len := FrameBytes(f), ToU32(|f.payload|);
    BigEndian(f.kind);
    BigEndian(len);
    assert s[..4] == EncodeU32(f.kind);
    assert s[4..8] == EncodeU32(len);
  }

  /** A frame is read back, and nothing after it is touched, exactly when its payload
      is shorter than 2^32 bytes; a longer one is cut. */
  lemma FrameRoundTrip(f: Frame, rest: seq<byte>)
    ensures ReadFrame(FrameBytes(f) + rest) == Some(Received(f, rest)) <==> |f.payload| < 0x1_0000_0000
  {
    FrameHeader(f, rest);
    var s, len := FrameBytes(f) + rest, ToU32(|f.payload|);
    assert len <= |f.payload|;
    assert s[8..8 + len] == s[8..][..len] == f.payload[..len];
    assert s[8 + len..] == s[8..][len..] == f.payload[len..] + rest;
    if |f.payload| < 0x1_0000_0000 {
      assert f.payload[..len] == f.payload;
      assert f.payload[len..] + rest == rest;
    }
  }

  lemma WrittenThen(before: seq<byte>, first: seq<byte>, after: seq<byte>, second: seq<byte>)
    requires PartlyWritten(before + first, after, second)
    ensures PartlyWritten(before, after, first + second)
  {
    assert before + (first + second) == before + first + second;
  }

  lemma WrittenLess(before: seq<byte>, after: seq<byte>, first: seq<byte>, second: seq<byte>)
    requires PartlyWritten(before, after, first)
    ensures PartlyWritten(before, after, first + second)
  {
    assert before + (first + second) == before + first + second;
  }

  method SendFrame(ch: Channel, f: Frame) returns (ok: bool)
    modifies ch
    ensures ok ==> ch.inFlight == old(ch.inFlight) + FrameBytes(f)
    ensures PartlyWritten(old(ch.inFlight), ch.inFlight, FrameBytes(f))
    ensures ch.reliable ==> ok
  {
    ghost var before := ch.inFlight;
    var kind, length := EncodeU32(f.kind), EncodeU32(ToU32(|f.payload|));
    ok := WriteBytes(ch, kind);
    if !ok {
      WrittenLess(before, ch.inFlight, kind, length + f.payload);
      return;
    }
    ok := WriteBytes(ch, length);
    if !ok {
      WrittenThen(before, kind, ch.inFlight, length);
      WrittenLess(before, ch.inFlight, kind + length, f.payload);
      assert kind + length + f.payload == FrameBytes(f);
      return;
    }
    if f.payload != [] {
      ok := WriteBytes(ch, f.payload);
    }
    assert before + kind + length == before + (kind + length);
    WrittenThen(before, kind + length, ch.inFlight, f.payload);
    assert kind + length + f.payload == FrameBytes(f);
    assert before + kind + length + f.payload == before + FrameBytes(f);
  }

  method ReceiveFrame(ch: Channel) returns (r: Option<Frame>)
    modifies ch
    ensures r.Some? ==> ReadFrame(old(ch.inFlight)) == Some(Received(r.value, ch.inFlight))
    ensures ch.reliable ==> (r.Some? <==> ReadFrame(old(ch.inFlight)).Some?)
  {
    ghost var s := ch.inFlight;
    var kind := ReadBytes(ch, 4);
    if kind.None? {
      return None;
    }
    var length := ReadBytes(ch, 4);
    if length.None? {
      return None;
    }
    assert s == kind.value + (length.value + ch.inFlight);
    assert s[..4] == kind.value && s[4..8] == length.value && s[8..] == ch.inFlight;
    var len := DecodeU32(length.value);
    var payload := ReadBytes(ch, len);
    if payload.None? {
      return None;
    }
    assert s[8..8 + len] == s[8..][..len] && s[8 + len..] == s[8..][len..];
    r := Some(Frame(DecodeU32(kind.value), payload.value));
  }

  // ---- Session ----

  datatype Response = Response(success: bool, errorMessage: seq<byte>, batchCount: uint32, queryId: string)

  /** Serialisation, which the session only needs to be undone by deserialisation. */
  datatype Codec<!T(!new)> = Codec(encode: T -> seq<byte>, decode: seq<byte> -> T) {
    ghost predicate Lossless() { forall x :: decode(encode(x)) == x }
  }

  /** The three encodings of a session. */
  datatype Wire = Wire(packages: Codec<QueryPackage>, responses: Codec<Response>, batches: Codec<ResultBatch>) {
    ghost predicate Lossless() { packages.Lossless() && responses.Lossless() && batches.Lossless() }
  }

  /** Payloads and batch count fit their 32-bit fields. */
  ghost predicate AnswerFits(responses: Codec<Response>, codec: Codec<ResultBatch>, queryId: string,
                             batches: seq<ResultBatch>)
  {
    && |batches| < 0x1_0000_0000 && AllFit(codec, batches)
    && |HeaderFrame(responses, |batches|, queryId).payload| < 0x1_0000_0000
  }

  type Handler = QueryPackage -> Result<seq<ResultBatch>>

  function BatchFrame(codec: Codec<ResultBatch>, batch: ResultBatch): Frame {
    Frame(RESULT_BATCH, codec.encode(batch))
  }

  /** The frames of the batches from the k-th on. */
  function BatchBytes(codec: Codec<ResultBatch>, batches: seq<ResultBatch>, k: nat): seq<byte>
    requires k <= |batches|
    decreases |batches| - k
  {
    if k == |batches| then [] else FrameBytes(BatchFrame(codec, batches[k])) + BatchBytes(codec, batches, k + 1)
  }

  function HeaderFrame(codec: Codec<Response>, count: nat, queryId: string): Frame {
    Frame(QUERY_RESPONSE, codec.encode(Response(true, [], ToU32(count), queryId)))
  }

  /** A batch in front of a reading. */
  function Pushed(batch: ResultBatch, r: Option<Received<seq<ResultBatch>>>): Option<Received<seq<ResultBatch>>> {
    if r.None? then r else Some(Received([batch] + r.value.value, r.value.rest))
  }

  /** What the client reads after the header: as many batch frames as announced. */
  function ReadBatches(codec: Codec<ResultBatch>, count: nat, s: seq<byte>): Option<Received<seq<ResultBatch>>> {
    if count == 0 then Some(Received([], s))
    else
      var f := ReadFrame(s);
      if f.None? || f.value.value.kind != RESULT_BATCH then None
      else Pushed(codec.decode(f.value.value.payload), ReadBatches(codec, count - 1, f.value.rest))
  }

  /** That many frames of any kind. */
  function ReadFrames(count: nat, s: seq<byte>): Option<Received<seq<Frame>>> {
    if count == 0 then Some(Received([], s))
    else
      var f := ReadFrame(s);
      if f.None? then None
      else
        var more := ReadFrames(count - 1, f.value.rest);
        if more.None? then None else Some(Received([f.value.value] + more.value.value, more.value.rest))
  }

  ghost predicate BatchesOf(codec: Codec<ResultBatch>, frames: seq<Frame>, batches: seq<ResultBatch>) {
    |batches| == |frames| && forall k :: 0 <= k < |frames| ==> batches[k] == codec.decode(frames[k].payload)
  }

  predicate AllBatchFrames(frames: seq<Frame>) { forall k :: 0 <= k < |frames| ==> frames[k].kind == RESULT_BATCH }

  /** The client reads batches iff that many frames follow and every one of them is a
      batch frame; it decodes their payloads in order. */
  lemma {:induction false} BatchesExactly(codec: Codec<ResultBatch>, count: nat, s: seq<byte>)
    ensures ReadBatches(codec, count, s).Some? <==>
      ReadFrames(count, s).Some? && AllBatchFrames(ReadFrames(count, s).value.value)
    ensures ReadFrames(count, s).Some? ==> |ReadFrames(count, s).value.value| == count
    ensures ReadBatches(codec, count, s).Some? ==>
      && BatchesOf(codec, ReadFrames(count, s).value.value, ReadBatches(codec, count, s).value.value)
      && ReadBatches(codec, count, s).value.rest == ReadFrames(count, s).value.rest
  {
    if count > 0 && ReadFrame(s).Some? {
      var f := ReadFrame(s).value;
      BatchesExactly(codec, count - 1, f.rest);
      if ReadFrames(count - 1, f.rest).Some? {
        var more := ReadFrames(count - 1, f.rest).value.value;
        assert ([f.value] + more)[0] == f.value;
        assert forall k :: 0 < k <= |more| ==> ([f.value] + more)[k] == more[k - 1];
        assert forall k :: 0 <= k < |more| ==> more[k] == ([f.value] + more)[k + 1];
      }
    }
  }

  ghost predicate AllFit(codec: Codec<ResultBatch>, batches: seq<ResultBatch>) {
    forall k :: 0 <= k < |batches| ==> |codec.encode(batches[k])| < 0x1_0000_0000
  }

  lemma BatchRead(codec: Codec<ResultBatch>, batch: ResultBatch, count: nat, tail: seq<byte>)
    requires codec.Lossless() && |codec.encode(batch)| < 0x1_0000_0000 && count > 0
    ensures ReadBatches(codec, count, FrameBytes(BatchFrame(codec, batch)) + tail) ==
      Pushed(batch, ReadBatches(codec, count - 1, tail))
  {
    FrameRoundTrip(BatchFrame(codec, batch), tail);
  }

  lemma NextBatch(codec: Codec<ResultBatch>, batches: seq<ResultBatch>, k: nat, count: nat)
    requires codec.Lossless() && AllFit(codec, batches) && count > 0 && k < |batches|
    ensures ReadBatches(codec, count, BatchBytes(codec, batches, k)) ==
      Pushed(batches[k], ReadBatches(codec, count - 1, BatchBytes(codec, batches, k + 1)))
  {
    BatchRead(codec, batches[k], count, BatchBytes(codec, batches, k + 1));
  }

  lemma PushedSlice(batches: seq<ResultBatch>, k: nat, end: nat, tail: Option<Received<seq<ResultBatch>>>,
                    rest: seq<byte>)
    requires k < end <= |batches| && tail == Some(Received(batches[k + 1..end], rest))
    ensures Pushed(batches[k], tail) == Some(Received(batches[k..end], rest))
  {
    assert [batches[k]] + batches[k + 1..end] == batches[k..end];
  }

  lemma NothingRead(codec: Codec<ResultBatch>, batches: seq<ResultBatch>, k: nat, s: seq<byte>)
    requires k <= |batches|
    ensures ReadBatches(codec, 0, s) == Some(Received(batches[k..k], s))
  {
    assert batches[k..k] == [];
  }

  /** From batch k on, count batches are read. */
  ghost predicate ReadsOn(codec: Codec<ResultBatch>, batches: seq<ResultBatch>, k: nat, count: nat, end: nat)
    requires k + count == end <= |batches|
  {
    ReadBatches(codec, count, BatchBytes(codec, batches, k)) ==
      Some(Received(batches[k..end], BatchBytes(codec, batches, end)))
  }

  lemma ReadsOneMore(codec: Codec<ResultBatch>, batches: seq<ResultBatch>, k: nat, count: nat, end: nat)
    requires codec.Lossless() && AllFit(codec, batches) && count > 0 && k + count == end <= |batches|
    requires ReadsOn(codec, batches, k + 1, count - 1, end)
    ensures ReadsOn(codec, batches, k, count, end)
  {
    var tail := ReadBatches(codec, count - 1, BatchBytes(codec, batches, k + 1));
    NextBatch(codec, batches, k, count);
    PushedSlice(batches, k, end, tail, BatchBytes(codec, batches, end));
  }

  lemma {:induction false} BatchesRead(codec: Codec<ResultBatch>, batches: seq<ResultBatch>, k: nat, count: nat,
                                       end: nat)
    requires codec.Lossless() && AllFit(codec, batches) && k + count == end <= |batches|
    ensures ReadsOn(codec, batches, k, count, end)
    decreases count
  {
    if count == 0 {
      NothingRead(codec, batches, k, BatchBytes(codec, batches, k));
    } else {
      BatchesRead(codec, batches, k + 1, count - 1, end);
      ReadsOneMore(codec, batches, k, count, end);
    }
  }

  lemma FrameNotEmpty(codec: Codec<ResultBatch>, batches: seq<ResultBatch>, k: nat)
    requires k < |batches|
    ensures BatchBytes(codec, batches, k) != []
  {
    assert |FrameBytes(BatchFrame(codec, batches[k]))| >= 8;
  }

  /** The client takes the announced number of batches off the stream: all of them,
      with nothing left over, exactly when their number fits the 32-bit count. */
  lemma BatchesReceived(codec: Codec<ResultBatch>, batches: seq<ResultBatch>)
    requires codec.Lossless() && AllFit(codec, batches)
    ensures ReadBatches(codec, ToU32(|batches|), BatchBytes(codec, batches, 0)) == Some(Received(batches, [])) <==>
      |batches| < 0x1_0000_0000
  {
    var count: nat := ToU32(|batches|);
    assert count <= |batches|;
    BatchesRead(codec, batches, 0, count, count);
    if |batches| < 0x1_0000_0000 {
      assert batches[0..count] == batches;
    } else {
      FrameNotEmpty(codec, batches, count);
    }
  }

  /** What the server writes for a handled package. */
  function AnswerBytes(responses: Codec<Response>, codec: Codec<ResultBatch>, queryId: string,
                       result: Result<seq<ResultBatch>>, errorText: seq<byte>): seq<byte>
  {
    if result.Err? then FrameBytes(Frame(ERROR, errorText))
    else FrameBytes(HeaderFrame(responses, |result.value|, queryId)) + BatchBytes(codec, result.value, 0)
  }

  method SendBatches(down: Channel, codec: Codec<ResultBatch>, batches: seq<ResultBatch>) returns (ok: bool)
    modifies down
    ensures ok ==> down.inFlight == old(down.inFlight) + BatchBytes(codec, batches, 0)
    ensures PartlyWritten(old(down.inFlight), down.inFlight, BatchBytes(codec, batches, 0))
    ensures down.reliable ==> ok
  {
    ghost var start, all := down.inFlight, BatchBytes(codec, batches, 0);
    for k := 0 to |batches|
      invariant start <= down.inFlight && start + all == down.inFlight + BatchBytes(codec, batches, k)
    {
      ghost var before := down.inFlight;
      ok := SendFrame(down, BatchFrame(codec, batches[k]));
      Rejoin(before, FrameBytes(BatchFrame(codec, batches[k])), BatchBytes(codec, batches, k + 1));
      if !ok {
        WrittenLess(before, down.inFlight, FrameBytes(BatchFrame(codec, batches[k])),
                    BatchBytes(codec, batches, k + 1));
        return;
      }
    }
    ok := true;
    assert down.inFlight + [] == down.inFlight;
  }

  lemma Rejoin(a: seq<byte>, b: seq<byte>, c: seq<byte>)
    ensures a + (b + c) == a + b + c
  {
  }

  /** What the server says to a frame that is no query. */
  const EXPECTED_REQUEST := AsciiBytes("Expected QueryRequest")

  function AsciiBytes(s: string): seq<byte> { seq(|s|, i requires 0 <= i < |s| => Code(s[i]) % 256) }

  /** The request of a connection. A frame of another kind is answered with an error,
      a connection that closes before its frame is complete with nothing. */
  method ReceiveRequest(up: Channel, down: Channel, packages: Codec<QueryPackage>) returns (r: Option<QueryPackage>)
    requires up != down
    modifies up, down
    ensures up.reliable && down.reliable ==>
      var request := ReadFrame(old(up.inFlight));
      if request.None? then r == None && down.inFlight == old(down.inFlight)
      else
        && up.inFlight == request.value.rest
        && if request.value.value.kind != QUERY_REQUEST then
             r == None && down.inFlight == old(down.inFlight) + FrameBytes(Frame(ERROR, EXPECTED_REQUEST))
           else r == Some(packages.decode(request.value.value.payload)) && down.inFlight == old(down.inFlight)
    ensures r.Some? ==>
      var request := ReadFrame(old(up.inFlight));
      && request.Some? && request.value.value.kind == QUERY_REQUEST
      && r.value == packages.decode(request.value.value.payload) && down.inFlight == old(down.inFlight)
    ensures r.None? ==>
      var request := ReadFrame(old(up.inFlight));
      if request.Some? && request.value.value.kind != QUERY_REQUEST then
        PartlyWritten(old(down.inFlight), down.inFlight, FrameBytes(Frame(ERROR, EXPECTED_REQUEST)))
      else down.inFlight == old(down.inFlight)
  {
    var request := ReceiveFrame(up);
    if request.None? {
      return None;
    }
    if request.value.kind != QUERY_REQUEST {
      var _ := SendFrame(down, Frame(ERROR, EXPECTED_REQUEST));
      return None;
    }
    r := Some(packages.decode(request.value.payload));
  }

  /** The answer to a handled package: an error, or a header with its batches. */
  method SendAnswer(down: Channel, responses: Codec<Response>, codec: Codec<ResultBatch>, queryId: string,
                    result: Result<seq<ResultBatch>>, errorText: seq<byte>)
    modifies down
    ensures down.reliable ==>
      down.inFlight == old(down.inFlight) + AnswerBytes(responses, codec, queryId, result, errorText)
    ensures PartlyWritten(old(down.inFlight), down.inFlight, AnswerBytes(responses, codec, queryId, result, errorText))
  {
    if result.Err? {
      var _ := SendFrame(down, Frame(ERROR, errorText));
      return;
    }
    var header := HeaderFrame(responses, |result.value|, queryId);
    ghost var before, batches := down.inFlight, BatchBytes(codec, result.value, 0);
    var ok := SendFrame(down, header);
    if ok {
      var _ := SendBatches(down, codec, result.value);
      WrittenThen(before, FrameBytes(header), down.inFlight, batches);
    } else {
      WrittenLess(before, down.inFlight, FrameBytes(header), batches);
    }
    Rejoin(before, FrameBytes(header), batches);
  }

  /** One connection on the server: a request frame in, an error or a header with its
      batches out. On a connection that fails, some of that is written. */
  method HandleClient(up: Channel, down: Channel, packages: Codec<QueryPackage>, responses: Codec<Response>,
                      codec: Codec<ResultBatch>, handler: Handler, queryId: string, errorText: seq<byte>)
    requires up != down
    modifies up, down
    ensures up.reliable && down.reliable ==>
      var request := ReadFrame(old(up.inFlight));
      if request.None? then down.inFlight == old(down.inFlight)
      else
        && up.inFlight == request.value.rest
        && down.inFlight == old(down.inFlight) +
             if request.value.value.kind != QUERY_REQUEST then FrameBytes(Frame(ERROR, EXPECTED_REQUEST))
             else
               AnswerBytes(responses, codec, queryId, handler(packages.decode(request.value.value.payload)), errorText)
    ensures
      var request := ReadFrame(old(up.inFlight));
      if request.None? then down.inFlight == old(down.inFlight)
      else
        PartlyWritten(old(down.inFlight), down.inFlight,
          if request.value.value.kind != QUERY_REQUEST then FrameBytes(Frame(ERROR, EXPECTED_REQUEST))
          else AnswerBytes(responses, codec, queryId, handler(packages.decode(request.value.value.payload)), errorText))
  {
    var pkg := ReceiveRequest(up, down, packages);
    if pkg.Some? {
      SendAnswer(down, responses, codec, queryId, handler(pkg.value), errorText);
    }
  }

  method ReceiveBatch(down: Channel, codec: Codec<ResultBatch>, ghost count: nat) returns (r: Option<ResultBatch>)
    requires count > 0
    modifies down
    ensures r.Some? ==>
      ReadBatches(codec, count, old(down.inFlight)) == Pushed(r.value, ReadBatches(codec, count - 1, down.inFlight))
    ensures down.reliable && r.None? ==> ReadBatches(codec, count, old(down.inFlight)).None?
  {
    var f := ReceiveFrame(down);
    if f.None? || f.value.kind != RESULT_BATCH {
      return None;
    }
    r := Some(codec.decode(f.value.payload));
  }

  /** The client's loop over the announced batches. */
  method ReceiveBatches(down: Channel, codec: Codec<ResultBatch>, count: nat) returns (r: Option<seq<ResultBatch>>)
    modifies down
    ensures r.Some? ==> ReadBatches(codec, count, old(down.inFlight)) == Some(Received(r.value, down.inFlight))
    ensures down.reliable ==> (r.Some? <==> ReadBatches(codec, count, old(down.inFlight)).Some?)
  {
    var batches: seq<ResultBatch> := [];
    ghost var spec := ReadBatches(codec, count, down.inFlight);
    assert spec.Some? ==> batches + spec.value.value == spec.value.value;
    for i := 0 to count
      invariant spec == After(batches, ReadBatches(codec, count - i, down.inFlight))
    {
      var batch := ReceiveBatch(down, codec, count - i);
      if batch.None? {
        return None;
      }
      AfterSnoc(batches, batch.value, ReadBatches(codec, count - i - 1, down.inFlight));
      batches := batches + [batch.value];
    }
    assert batches + [] == batches;
    r := Some(batches);
  }

  /** A reading that continues after some batches. */
  function After(batches: seq<ResultBatch>, r: Option<Received<seq<ResultBatch>>>): Option<Received<seq<ResultBatch>>> {
    if r.None? then r else Some(Received(batches + r.value.value, r.value.rest))
  }

  lemma AfterSnoc(batches: seq<ResultBatch>, batch: ResultBatch, r: Option<Received<seq<ResultBatch>>>)
    ensures After(batches, Pushed(batch, r)) == After(batches + [batch], r)
  {
    if r.Some? {
      assert batches + ([batch] + r.value.value) == batches + [batch] + r.value.value;
    }
  }

  datatype Outcome = Batches(response: Response, batches: seq<ResultBatch>) | Refused(message: seq<byte>) | Broken

  /** Whatever has been received was on the stream in full. */
  ghost predicate WasSent(responses: Codec<Response>, codec: Codec<ResultBatch>, s: seq<byte>, r: Outcome) {
    var header := ReadFrame(s);
    match r
    case Broken => true
    case Refused(message) =>
      && header.Some?
      && (header.value.value == Frame(ERROR, message) ||
          (header.value.value.kind == QUERY_RESPONSE && !responses.decode(header.value.value.payload).success))
    case Batches(response, batches) =>
      && header.Some? && header.value.value.kind == QUERY_RESPONSE
      && responses.decode(header.value.value.payload) == response && response.success
      && var read := ReadBatches(codec, response.batchCount, header.value.rest);
      read.Some? && read.value.value == batches
  }

  /** The client's half of an answer: an error, or the header and its batches. */
  method ReceiveAnswer(down: Channel, responses: Codec<Response>, codec: Codec<ResultBatch>) returns (r: Outcome)
    modifies down
    ensures WasSent(responses, codec, old(down.inFlight), r)
    ensures down.reliable && ReadFrame(old(down.inFlight)).None? ==> r == Broken
    ensures
      var header := ReadFrame(old(down.inFlight));
      down.reliable && header.Some? ==>
        var f, rest := header.value.value, header.value.rest;
        if f.kind == ERROR then r == Refused(f.payload) && down.inFlight == rest
        else if f.kind != QUERY_RESPONSE then r == Broken
        else
          var response := responses.decode(f.payload);
          if !response.success then r == Refused(response.errorMessage) && down.inFlight == rest
          else
            var read := ReadBatches(codec, response.batchCount, rest);
            if read.None? then r == Broken
            else r == Batches(response, read.value.value) && down.inFlight == read.value.rest
  {
    var header := ReceiveFrame(down);
    if header.None? {
      return Broken;
    }
    if header.value.kind == ERROR {
      return Refused(header.value.payload);
    }
    if header.value.kind != QUERY_RESPONSE {
      return Broken;
    }
    var response := responses.decode(header.value.payload);
    if !response.success {
      return Refused(response.errorMessage);
    }
    var batches := ReceiveBatches(down, codec, response.batchCount);
    r := if batches.None? then Broken else Batches(response, batches.value);
  }

  // ---- What is read from part of a stream would be read from all of it ----

  lemma FrameOfPart(s: seq<byte>, t: seq<byte>)
    requires s <= t && ReadFrame(s).Some?
    ensures ReadFrame(t).Some? && ReadFrame(t).value.value == ReadFrame(s).value.value
    ensures ReadFrame(s).value.rest <= ReadFrame(t).value.rest
  {
    assert t[..4] == s[..4] && t[4..8] == s[4..8];
    var len := DecodeU32(s[4..8]);
    assert t[8..8 + len] == s[8..8 + len];
  }

  lemma {:induction false} BatchesOfPart(codec: Codec<ResultBatch>, count: nat, s: seq<byte>, t: seq<byte>)
    requires s <= t && ReadBatches(codec, count, s).Some?
    ensures ReadBatches(codec, count, t).Some?
    ensures ReadBatches(codec, count, t).value.value == ReadBatches(codec, count, s).value.value
    decreases count
  {
    if count > 0 {
      FrameOfPart(s, t);
      BatchesOfPart(codec, count - 1, ReadFrame(s).value.rest, ReadFrame(t).value.rest);
    }
  }

  /** What the client makes of part of an answer is the answer, if it is anything. */
  ghost predicate Faithful(queryId: string, result: Result<seq<ResultBatch>>, errorText: seq<byte>, r: Outcome) {
    match r
    case Broken => true
    case Refused(message) => result.Err? && message == errorText
    case Batches(response, batches) =>
      result == Ok(batches) && response == Response(true, [], ToU32(|batches|), queryId)
  }

  lemma PartOfAnswer(responses: Codec<Response>, codec: Codec<ResultBatch>, queryId: string,
                     result: Result<seq<ResultBatch>>, errorText: seq<byte>, s: seq<byte>, r: Outcome)
    requires responses.Lossless() && codec.Lossless() && |errorText| < 0x1_0000_0000
    requires result.Ok? ==> AnswerFits(responses, codec, queryId, result.value)
    requires s <= AnswerBytes(responses, codec, queryId, result, errorText) && WasSent(responses, codec, s, r)
    ensures Faithful(queryId, result, errorText, r)
  {
    var all := AnswerBytes(responses, codec, queryId, result, errorText);
    AnswerRead(responses, codec, queryId, result, errorText);
    if !r.Broken? {
      FrameOfPart(s, all);
      if r.Batches? {
        BatchesOfPart(codec, r.response.batchCount, ReadFrame(s).value.rest, ReadFrame(all).value.rest);
      }
    }
  }

  /** A whole session over a fresh connection. Whenever the client receives batches or
      an error, they are the handler's, also when the connection fails; and if it does
      not fail, they arrive, in order and with nothing left on the stream, however reads
      and writes are fragmented. */
  method Session(packages: Codec<QueryPackage>, responses: Codec<Response>, codec: Codec<ResultBatch>, handler: Handler,
                 pkg: QueryPackage, queryId: string, errorText: seq<byte>, reliable: bool)
    returns (r: Outcome, down: Channel)
    requires packages.Lossless() && responses.Lossless() && codec.Lossless()
    requires |packages.encode(pkg)| < 0x1_0000_0000 && |errorText| < 0x1_0000_0000
    requires handler(pkg).Ok? ==> AnswerFits(responses, codec, queryId, handler(pkg).value)
    ensures Faithful(queryId, handler(pkg), errorText, r)
    ensures reliable ==> !r.Broken? && down.inFlight == []
  {
    var up := new Channel(reliable);
    down := new Channel(reliable);
    var request := Frame(QUERY_REQUEST, packages.encode(pkg));
    var _ := SendFrame(up, request);
    ghost var sent := up.inFlight;
    RequestOfPart(request, sent);
    HandleClient(up, down, packages, responses, codec, handler, queryId, errorText);
    AnswerRead(responses, codec, queryId, handler(pkg), errorText);
    ghost var answered := down.inFlight;
    if ReadFrame(sent).Some? {
      assert [] + AnswerBytes(responses, codec, queryId, handler(pkg), errorText) ==
        AnswerBytes(responses, codec, queryId, handler(pkg), errorText);
    }
    r := ReceiveAnswer(down, responses, codec);
    PartOfAnswer(responses, codec, queryId, handler(pkg), errorText, answered, r);
  }

  /** Part of a request is read as nothing or as the request. */
  lemma RequestOfPart(request: Frame, s: seq<byte>)
    requires |request.payload| < 0x1_0000_0000 && s <= FrameBytes(request)
    ensures ReadFrame(s).Some? ==> ReadFrame(s).value.value == request
    ensures s == FrameBytes(request) ==> ReadFrame(s) == Some(Received(request, []))
  {
    FrameRoundTrip(request, []);
    assert FrameBytes(request) + [] == FrameBytes(request);
    if ReadFrame(s).Some? {
      FrameOfPart(s, FrameBytes(request));
    }
  }

  lemma AnswerRead(responses: Codec<Response>, codec: Codec<ResultBatch>, queryId: string,
                   result: Result<seq<ResultBatch>>, errorText: seq<byte>)
    requires codec.Lossless() && |errorText| < 0x1_0000_0000
    requires result.Ok? ==> AnswerFits(responses, codec, queryId, result.value)
    ensures
      var header := ReadFrame(AnswerBytes(responses, codec, queryId, result, errorText));
      if result.Err? then header == Some(Received(Frame(ERROR, errorText), []))
      else
        && header.Some? && header.value.value == HeaderFrame(responses, |result.value|, queryId)
        && ReadBatches(codec, |result.value|, header.value.rest) == Some(Received(result.value, []))
  {
    if result.Err? {
      FrameRoundTrip(Frame(ERROR, errorText), []);
      assert FrameBytes(Frame(ERROR, errorText)) + [] == FrameBytes(Frame(ERROR, errorText));
    } else {
      FrameRoundTrip(HeaderFrame(responses, |result.value|, queryId), BatchBytes(codec, result.value, 0));
      BatchesReceived(codec, result.value);
    }
  }
}
