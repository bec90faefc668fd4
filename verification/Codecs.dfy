/** The blob, range and sliver request and response codecs. */
module Codecs {
  import opened Bytes
  import opened Wire

  type Digest = b: Bytes | |b| == 32 witness seq(32, i => 0)
  type U64 = n: nat | n < 0x1_0000_0000_0000_0000
  type U16 = n: nat | n < 65536

  datatype BlobRequest = BlobRequest(blobId: Digest, version: Byte, payment: Digest)
  datatype RangeRequest = RangeRequest(blobId: Digest, offset: U64, length: U64, payment: Digest)
  datatype SliverRequest = SliverRequest(blobId: Digest, index: U16, axis: Byte)

  /** A response carries the data, or says not found. */
  type Response = Option<Bytes>

  // ----- Requests -----

  function EncodeBlobRequest(r: BlobRequest): Bytes {
    Le(65, 4) + (r.blobId + [r.version] + r.payment)
  }

  /** Longer frames are accepted; what follows the first 65 bytes is ignored. */
  function DecodeBlobRequest(s: Bytes): Read<BlobRequest> {
    match ReadFrame(s, 65, MAX_MESSAGE)
    case Failed(e) => Failed(e)
    case Got(f, rest) => Got(BlobRequest(f[..32], f[32], f[33..65]), rest)
  }

  function EncodeRangeRequest(r: RangeRequest): Bytes {
    Le(80, 4) + (r.blobId + Le(r.offset, 8) + Le(r.length, 8) + r.payment)
  }

  function DecodeRangeRequest(s: Bytes): Read<RangeRequest> {
    match ReadFrame(s, 80, 80)
    case Failed(e) => Failed(e)
    case Got(f, rest) =>
      FromLeBound(f[32..40]);
      FromLeBound(f[40..48]);
      Widths();
      Got(RangeRequest(f[..32], FromLe(f[32..40]), FromLe(f[40..48]), f[48..80]), rest)
  }

  function EncodeSliverRequest(r: SliverRequest): Bytes {
    Le(35, 4) + (r.blobId + Le(r.index, 2) + [r.axis])
  }

  function DecodeSliverRequest(s: Bytes): Read<SliverRequest> {
    match ReadFrame(s, 35, 35)
    case Failed(e) => Failed(e)
    case Got(f, rest) =>
      FromLeBound(f[32..34]);
      Widths();
      Got(SliverRequest(f[..32], FromLe(f[32..34]), f[34]), rest)
  }

  lemma BlobRequestRoundTrip(r: BlobRequest, rest: Bytes)
    ensures DecodeBlobRequest(EncodeBlobRequest(r) + rest) == Got(r, rest)
  {
    var f := r.blobId + [r.version] + r.payment;
    FrameRoundTrip(f, rest, 65, MAX_MESSAGE);
    assert f[..32] == r.blobId && f[33..65] == r.payment;
  }

  lemma RangeRequestRoundTrip(r: RangeRequest, rest: Bytes)
    ensures DecodeRangeRequest(EncodeRangeRequest(r) + rest) == Got(r, rest)
  {
    var f := r.blobId + Le(r.offset, 8) + Le(r.length, 8) + r.payment;
    FrameRoundTrip(f, rest, 80, 80);
    Widths();
    LeRoundTrip(r.offset, 8);
    LeRoundTrip(r.length, 8);
    assert f[..32] == r.blobId && f[32..40] == Le(r.offset, 8) && f[40..48] == Le(r.length, 8)
           && f[48..80] == r.payment;
  }

  lemma SliverRequestRoundTrip(r: SliverRequest, rest: Bytes)
    ensures DecodeSliverRequest(EncodeSliverRequest(r) + rest) == Got(r, rest)
  {
    var f := r.blobId + Le(r.index, 2) + [r.axis];
    FrameRoundTrip(f, rest, 35, 35);
    Widths();
    LeRoundTrip(r.index, 2);
    assert f[..32] == r.blobId && f[32..34] == Le(r.index, 2);
  }

  // ----- Responses -----

  const NOT_FOUND_FRAME: Bytes := Le(1, 4) + [0]

  function BlobBody(data: Bytes): Bytes { [1] + Le(|data|, 4) + data }

  /** The length is cast to u32 and the header added in u32. */
  function EncodeBlobResponse(r: Response): Bytes {
    match r
    case None => NOT_FOUND_FRAME
    case Some(data) => Le((5 + |data| % U32) % U32, 4) + BlobBody(data)
  }

  function ParseBlobBody(f: Bytes, rest: Bytes): Read<Response>
    requires f != []
  {
    if f[0] == 0 then Got(None, rest)
    else if f[0] != 1 || |f| < 5 || |f| != 5 + FromLe(f[1..5]) then Failed(InvalidData)
    else Got(Some(f[5..]), rest)
  }

  function DecodeBlobResponse(s: Bytes): Read<Response> {
    match ReadFrame(s, 1, MAX_MESSAGE)
    case Failed(e) => Failed(e)
    case Got(f, rest) => ParseBlobBody(f, rest)
  }

  function PlainBody(data: Bytes): Bytes { [1] + data }

  /** Range and sliver responses have no inner length. */
  function EncodePlainResponse(r: Response): Bytes {
    match r
    case None => NOT_FOUND_FRAME
    case Some(data) => Le((1 + |data| % U32) % U32, 4) + PlainBody(data)
  }

  function DecodePlainResponse(s: Bytes): Read<Response> {
    match ReadFrame(s, 1, MAX_MESSAGE)
    case Failed(e) => Failed(e)
    case Got(f, rest) =>
      if f[0] == 0 then Got(None, rest)
      else if f[0] != 1 then Failed(InvalidData)
      else Got(Some(f[1..]), rest)
  }

  lemma NotFoundRoundTrip(rest: Bytes)
    ensures DecodeBlobResponse(EncodeBlobResponse(None) + rest) == Got(None, rest)
    ensures DecodePlainResponse(EncodePlainResponse(None) + rest) == Got(None, rest)
  {
    FrameRoundTrip([0], rest, 1, MAX_MESSAGE);
  }

  lemma BlobBodyParses(data: Bytes, rest: Bytes)
    requires |data| < U32
    ensures |BlobBody(data)| == 5 + |data|
    ensures ParseBlobBody(BlobBody(data), rest) == Got(Some(data), rest)
  {
    var f := BlobBody(data);
    Widths();
    LeRoundTrip(|data|, 4);
    assert f[1..5] == Le(|data|, 4) && f[5..] == data;
  }

  lemma Fits(n: nat, header: nat)
    requires n + header < U32
    ensures (header + n % U32) % U32 == n + header
  {
  }

  lemma BlobThatFits(data: Bytes, rest: Bytes)
    requires |data| <= MAX_MESSAGE - 5
    ensures DecodeBlobResponse(EncodeBlobResponse(Some(data)) + rest) == Got(Some(data), rest)
  {
    var body := BlobBody(data);
    BlobBodyParses(data, rest);
    Fits(|data|, 5);
    FrameRoundTrip(body, rest, 1, MAX_MESSAGE);
  }

  /** Nothing a frame delivers is longer than a message without its header. */
  lemma DeliveredIsShort(s: Bytes)
    ensures DecodeBlobResponse(s).Got? && DecodeBlobResponse(s).value.Some? ==>
              |DecodeBlobResponse(s).value.value| <= MAX_MESSAGE - 5
    ensures DecodePlainResponse(s).Got? && DecodePlainResponse(s).value.Some? ==>
              |DecodePlainResponse(s).value.value| <= MAX_MESSAGE - 1
  {
  }

  /** A blob survives the wire exactly when it and its 5-byte header fit one message. */
  lemma BlobResponseRoundTrip(data: Bytes, rest: Bytes)
    ensures DecodeBlobResponse(EncodeBlobResponse(Some(data)) + rest) == Got(Some(data), rest)
            <==> |data| <= MAX_MESSAGE - 5
  {
    if |data| <= MAX_MESSAGE - 5 {
      BlobThatFits(data, rest);
    } else {
      DeliveredIsShort(EncodeBlobResponse(Some(data)) + rest);
    }
  }

  lemma ChunkThatFits(data: Bytes, rest: Bytes)
    requires |data| <= MAX_MESSAGE - 1
    ensures DecodePlainResponse(EncodePlainResponse(Some(data)) + rest) == Got(Some(data), rest)
  {
    var body := PlainBody(data);
    Fits(|data|, 1);
    FrameRoundTrip(body, rest, 1, MAX_MESSAGE);
    assert body[1..] == data;
  }

  /** A chunk survives the wire exactly when it and its status byte fit one message. */
  lemma PlainResponseRoundTrip(data: Bytes, rest: Bytes)
    ensures DecodePlainResponse(EncodePlainResponse(Some(data)) + rest) == Got(Some(data), rest)
            <==> |data| <= MAX_MESSAGE - 1
  {
    if |data| <= MAX_MESSAGE - 1 {
      ChunkThatFits(data, rest);
    } else {
      DeliveredIsShort(EncodePlainResponse(Some(data)) + rest);
    }
  }

  // ----- On a stream -----

  method WriteBlobRequest(io: Io, r: BlobRequest)
    modifies io`output
    ensures io.output == old(io.output) + EncodeBlobRequest(r)
  {
    io.WriteAll(Le(65, 4));
    io.WriteAll(r.blobId + [r.version] + r.payment);
  }

  method ReadBlobRequest(io: Io) returns (r: Read<BlobRequest>)
    modifies io`input
    ensures r == DecodeBlobRequest(old(io.input))
    ensures r.Got? ==> io.input == r.rest
  {
    var f := io.TakeFrame(65, MAX_MESSAGE);
    if f.Failed? { return Failed(f.error); }
    r := Got(BlobRequest(f.value[..32], f.value[32], f.value[33..65]), f.rest);
  }

  method WriteRangeRequest(io: Io, r: RangeRequest)
    modifies io`output
    ensures io.output == old(io.output) + EncodeRangeRequest(r)
  {
    io.WriteAll(Le(80, 4));
    io.WriteAll(r.blobId + Le(r.offset, 8) + Le(r.length, 8) + r.payment);
  }

  method ReadRangeRequest(io: Io) returns (r: Read<RangeRequest>)
    modifies io`input
    ensures r == DecodeRangeRequest(old(io.input))
    ensures r.Got? ==> io.input == r.rest
  {
    var frame := io.TakeFrame(80, 80);
    if frame.Failed? { return Failed(frame.error); }
    var f := frame.value;
    FromLeBound(f[32..40]);
    FromLeBound(f[40..48]);
    Widths();
    r := Got(RangeRequest(f[..32], FromLe(f[32..40]), FromLe(f[40..48]), f[48..80]), frame.rest);
  }

  method WriteSliverRequest(io: Io, r: SliverRequest)
    modifies io`output
    ensures io.output == old(io.output) + EncodeSliverRequest(r)
  {
    io.WriteAll(Le(35, 4));
    io.WriteAll(r.blobId + Le(r.index, 2) + [r.axis]);
  }

  method ReadSliverRequest(io: Io) returns (r: Read<SliverRequest>)
    modifies io`input
    ensures r == DecodeSliverRequest(old(io.input))
    ensures r.Got? ==> io.input == r.rest
  {
    var frame := io.TakeFrame(35, 35);
    if frame.Failed? { return Failed(frame.error); }
    var f := frame.value;
    FromLeBound(f[32..34]);
    Widths();
    r := Got(SliverRequest(f[..32], FromLe(f[32..34]), f[34]), frame.rest);
  }

  method WriteBlobResponse(io: Io, r: Response)
    modifies io`output
    ensures io.output == old(io.output) + EncodeBlobResponse(r)
  {
    if r.None? {
      io.WriteAll(Le(1, 4));
      io.WriteAll([0]);
    } else {
      io.WriteAll(Le((5 + |r.value| % U32) % U32, 4));
      io.WriteAll([1]);
      io.WriteAll(Le(|r.value|, 4));
      io.WriteAll(r.value);
    }
  }

  method ReadBlobResponse(io: Io) returns (r: Read<Response>)
    modifies io`input
    ensures r == DecodeBlobResponse(old(io.input))
    ensures r.Got? ==> io.input == r.rest
  {
    var f := io.TakeFrame(1, MAX_MESSAGE);
    if f.Failed? { return Failed(f.error); }
    if f.value[0] == 0 { return Got(None, f.rest); }
    if f.value[0] != 1 || |f.value| < 5 { return Failed(InvalidData); }
    if |f.value| != 5 + FromLe(f.value[1..5]) { return Failed(InvalidData); }
    r := Got(Some(f.value[5..]), f.rest);
  }

  method WritePlainResponse(io: Io, r: Response)
    modifies io`output
    ensures io.output == old(io.output) + EncodePlainResponse(r)
  {
    if r.None? {
      io.WriteAll(Le(1, 4));
      io.WriteAll([0]);
    } else {
      io.WriteAll(Le((1 + |r.value| % U32) % U32, 4));
      io.WriteAll([1]);
      io.WriteAll(r.value);
    }
  }

  method ReadPlainResponse(io: Io) returns (r: Read<Response>)
    modifies io`input
    ensures r == DecodePlainResponse(old(io.input))
    ensures r.Got? ==> io.input == r.rest
  {
    var f := io.TakeFrame(1, MAX_MESSAGE);
    if f.Failed? { return Failed(f.error); }
    if f.value[0] == 0 { return Got(None, f.rest); }
    if f.value[0] != 1 { return Failed(InvalidData); }
    r := Got(Some(f.value[1..]), f.rest);
  }
}
