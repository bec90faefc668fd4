/** What the codecs put on the wire, byte for byte, and exactly what their decoders accept. */
module CodecFormats {
  import opened Bytes
  import opened Division
  import opened Wire
  import opened Codecs

  // ----- Byte for byte -----

  /** The j-th byte of a little-endian field. */
  lemma {:induction false} LeByte(n: nat, k: nat, j: nat)
    requires j < k
    ensures Le(n, k)[j] == n / Pow256(j) % 256
    decreases k
  {
    if j > 0 {
      LeByte(n / 256, k - 1, j - 1);
      DivideTwice(n, Pow256(j - 1));
    }
  }

  lemma DivideTwice(n: nat, p: nat)
    requires p > 0
    ensures n / 256 / p == n / (256 * p)
  {
    var a, b := n / 256, n / 256 / p;
    DivBounds(a, p);
    var r := n % 256 + 256 * (a % p);
    assert n == b * (256 * p) + r by {
      assert a == b * p + a % p;
      assert b * (256 * p) == 256 * (b * p);
    }
    assert r < 256 * p;
    DivUnique(n, 256 * p, b);
  }

  predicate FieldAt(e: Bytes, at: nat, width: nat, n: nat) {
    at + width <= |e| && forall j: nat :: j < width ==> e[at + j] == n / Pow256(j) % 256
  }

  lemma FieldIs(e: Bytes, at: nat, width: nat, n: nat)
    requires at + width <= |e| && e[at..at + width] == Le(n, width)
    ensures FieldAt(e, at, width, n)
  {
    forall j: nat | j < width ensures e[at + j] == n / Pow256(j) % 256 {
      LeByte(n, width, j);
      assert e[at..at + width][j] == e[at + j];
    }
  }

  /** Length 65, the blob id, the version, the payment digest. */
  lemma BlobRequestBytes(r: BlobRequest)
    ensures var e := EncodeBlobRequest(r);
            && |e| == 69 && FieldAt(e, 0, 4, 65)
            && e[4..36] == r.blobId && e[36] == r.version && e[37..] == r.payment
  {
    var e := EncodeBlobRequest(r);
    FieldIs(e, 0, 4, 65);
  }

  /** Length 80, the blob id, offset and length in eight bytes each, the payment digest. */
  lemma RangeRequestBytes(r: RangeRequest)
    ensures var e := EncodeRangeRequest(r);
            && |e| == 84 && FieldAt(e, 0, 4, 80)
            && e[4..36] == r.blobId && FieldAt(e, 36, 8, r.offset) && FieldAt(e, 44, 8, r.length)
            && e[52..] == r.payment
  {
    var e := EncodeRangeRequest(r);
    assert e[36..44] == Le(r.offset, 8) && e[44..52] == Le(r.length, 8);
    FieldIs(e, 0, 4, 80);
    FieldIs(e, 36, 8, r.offset);
    FieldIs(e, 44, 8, r.length);
  }

  /** Length 35, the blob id, the index in two bytes, the axis. */
  lemma SliverRequestBytes(r: SliverRequest)
    ensures var e := EncodeSliverRequest(r);
            && |e| == 39 && FieldAt(e, 0, 4, 35)
            && e[4..36] == r.blobId && FieldAt(e, 36, 2, r.index) && e[38] == r.axis
  {
    var e := EncodeSliverRequest(r);
    assert e[36..38] == Le(r.index, 2);
    FieldIs(e, 0, 4, 35);
    FieldIs(e, 36, 2, r.index);
  }

  /** Not found is a frame of one byte, zero. */
  lemma NotFoundBytes()
    ensures EncodeBlobResponse(None) == [1, 0, 0, 0, 0] && EncodePlainResponse(None) == [1, 0, 0, 0, 0]
  {
    assert Le(0, 1) == [0] + Le(0, 0) && Le(0, 2) == [0] + Le(0, 1) && Le(0, 3) == [0] + Le(0, 2);
    assert Le(1, 4) == [1] + Le(0, 3);
  }

  /** A blob has status one, its own length again, and its bytes. */
  lemma BlobResponseBytes(data: Bytes)
    requires |data| + 5 < U32
    ensures var e := EncodeBlobResponse(Some(data));
            && |e| == 9 + |data| && FieldAt(e, 0, 4, 5 + |data|)
            && e[4] == 1 && FieldAt(e, 5, 4, |data|) && e[9..] == data
  {
    var e, body, length := EncodeBlobResponse(Some(data)), BlobBody(data), Le(5 + |data|, 4);
    Fits(|data|, 5);
    assert e == length + body;
    assert e[..4] == length && e[4..] == body;
    assert body[1..5] == Le(|data|, 4) && body[5..] == data;
    assert e[5..9] == body[1..5] && e[9..] == body[5..];
    FieldIs(e, 0, 4, 5 + |data|);
    FieldIs(e, 5, 4, |data|);
  }

  /** A range or sliver has the status and its bytes. */
  lemma PlainResponseBytes(data: Bytes)
    requires |data| + 1 < U32
    ensures var e := EncodePlainResponse(Some(data));
            |e| == 5 + |data| && FieldAt(e, 0, 4, 1 + |data|) && e[4] == 1 && e[5..] == data
  {
    var e, body, length := EncodePlainResponse(Some(data)), PlainBody(data), Le(1 + |data|, 4);
    Fits(|data|, 1);
    assert e == length + body;
    assert e[..4] == length && e[4..] == body && body[1..] == data;
    assert e[5..] == body[1..];
    FieldIs(e, 0, 4, 1 + |data|);
  }

  // ----- Exactly what is accepted -----

  /** A frame is read exactly when it is there with its length in front; of a frame that is not
      whole the end is missed, and a length out of bounds is refused. */
  lemma FrameExactly(s: Bytes, lo: nat, hi: nat)
    requires hi < U32
    ensures forall f, rest :: ReadFrame(s, lo, hi) == Got(f, rest) <==>
              lo <= |f| <= hi && s == Le(|f|, 4) + f + rest
    ensures ReadFrame(s, lo, hi) == Failed(InvalidData) <==> |s| >= 4 && !(lo <= FromLe(s[..4]) <= hi)
  {
    forall f, rest | ReadFrame(s, lo, hi) == Got(f, rest)
      ensures lo <= |f| <= hi && s == Le(|f|, 4) + f + rest
    {
      LeOfFromLe(s[..4]);
      assert s == s[..4] + s[4..];
      assert s[4..] == f + rest;
      Concat(s[..4], f, rest);
    }
    forall f, rest | lo <= |f| <= hi && s == Le(|f|, 4) + f + rest
      ensures ReadFrame(s, lo, hi) == Got(f, rest)
    {
      FrameRoundTrip(f, rest, lo, hi);
    }
  }

  lemma FourPieces(f: Bytes, a: nat, b: nat, c: nat)
    requires a <= b <= c <= |f|
    ensures f == f[..a] + f[a..b] + f[b..c] + f[c..]
  {
  }

  /** A range request is accepted exactly if it is an encoding of one. */
  lemma RangeRequestExactly(s: Bytes, r: RangeRequest, rest: Bytes)
    ensures DecodeRangeRequest(s) == Got(r, rest) <==> s == EncodeRangeRequest(r) + rest
  {
    RangeRequestRoundTrip(r, rest);
    if DecodeRangeRequest(s) == Got(r, rest) {
      FrameExactly(s, 80, 80);
      var f := ReadFrame(s, 80, 80).value;
      LeOfFromLe(f[32..40]);
      LeOfFromLe(f[40..48]);
      FourPieces(f, 32, 40, 48);
    }
  }

  /** And so is a sliver request. */
  lemma SliverRequestExactly(s: Bytes, r: SliverRequest, rest: Bytes)
    ensures DecodeSliverRequest(s) == Got(r, rest) <==> s == EncodeSliverRequest(r) + rest
  {
    SliverRequestRoundTrip(r, rest);
    if DecodeSliverRequest(s) == Got(r, rest) {
      FrameExactly(s, 35, 35);
      var f := ReadFrame(s, 35, 35).value;
      LeOfFromLe(f[32..34]);
      assert f == f[..32] + f[32..34] + [f[34]];
    }
  }

  /** A frame with something behind what is read of it. */
  predicate FrameWith(s: Bytes, head: Bytes, extra: Bytes, rest: Bytes) {
    |head| + |extra| <= MAX_MESSAGE && s == Le(|head + extra|, 4) + (head + extra) + rest
  }

  /** A blob request may be followed by anything within its frame, which is ignored. */
  lemma BlobRequestExactly(s: Bytes, r: BlobRequest, rest: Bytes)
    ensures DecodeBlobRequest(s) == Got(r, rest) <==>
            exists extra :: FrameWith(s, r.blobId + [r.version] + r.payment, extra, rest)
  {
    var head := r.blobId + [r.version] + r.payment;
    FrameExactly(s, 65, MAX_MESSAGE);
    if DecodeBlobRequest(s) == Got(r, rest) {
      var f := ReadFrame(s, 65, MAX_MESSAGE).value;
      assert f == head + f[65..];
      assert FrameWith(s, head, f[65..], rest);
    }
    if extra :| FrameWith(s, head, extra, rest) {
      var f := head + extra;
      assert ReadFrame(s, 65, MAX_MESSAGE) == Got(f, rest);
      assert f[..32] == r.blobId && f[32] == r.version && f[33..65] == r.payment;
    }
  }

  /** A blob response is accepted exactly if it is the encoding of a blob of at most 64 MiB - 5,
      or a frame that begins with status zero; any other whole frame is refused. */
  lemma BlobResponseExactly(s: Bytes, data: Bytes, rest: Bytes)
    ensures DecodeBlobResponse(s) == Got(Some(data), rest) <==>
            |data| <= MAX_MESSAGE - 5 && s == EncodeBlobResponse(Some(data)) + rest
    ensures DecodeBlobResponse(s) == Got(None, rest) <==> exists extra :: FrameWith(s, [0], extra, rest)
    ensures DecodeBlobResponse(s).Failed? && ReadFrame(s, 1, MAX_MESSAGE).Got? ==>
              DecodeBlobResponse(s) == Failed(InvalidData)
  {
    if |data| <= MAX_MESSAGE - 5 { BlobThatFits(data, rest); }
    if DecodeBlobResponse(s) == Got(Some(data), rest) { DecodedBlob(s, data, rest); }
    NotFoundExactly(s, rest);
  }

  lemma DecodedBlob(s: Bytes, data: Bytes, rest: Bytes)
    requires DecodeBlobResponse(s) == Got(Some(data), rest)
    ensures |data| <= MAX_MESSAGE - 5 && s == EncodeBlobResponse(Some(data)) + rest
  {
    FrameExactly(s, 1, MAX_MESSAGE);
    var f := ReadFrame(s, 1, MAX_MESSAGE).value;
    LeOfFromLe(f[1..5]);
    Fits(|data|, 5);
    FourPieces(f, 0, 1, 5);
    assert f == BlobBody(data);
  }

  lemma DecodedChunk(s: Bytes, data: Bytes, rest: Bytes)
    requires DecodePlainResponse(s) == Got(Some(data), rest)
    ensures |data| <= MAX_MESSAGE - 1 && s == EncodePlainResponse(Some(data)) + rest
  {
    FrameExactly(s, 1, MAX_MESSAGE);
    var f := ReadFrame(s, 1, MAX_MESSAGE).value;
    Fits(|data|, 1);
    assert f == [1] + f[1..];
    assert f == PlainBody(data);
  }

  lemma NotFoundExactly(s: Bytes, rest: Bytes)
    ensures var frame := ReadFrame(s, 1, MAX_MESSAGE);
            (frame.Got? && frame.value[0] == 0 && frame.rest == rest) <==>
                exists extra :: FrameWith(s, [0], extra, rest)
  {
    FrameExactly(s, 1, MAX_MESSAGE);
    var frame := ReadFrame(s, 1, MAX_MESSAGE);
    if frame.Got? && frame.value[0] == 0 && frame.rest == rest {
      assert frame.value == [0] + frame.value[1..];
      assert FrameWith(s, [0], frame.value[1..], rest);
    }
    if extra :| FrameWith(s, [0], extra, rest) {
      assert frame == Got([0] + extra, rest);
    }
  }

  /** The same for range and sliver responses, of at most 64 MiB - 1. */
  lemma PlainResponseExactly(s: Bytes, data: Bytes, rest: Bytes)
    ensures DecodePlainResponse(s) == Got(Some(data), rest) <==>
            |data| <= MAX_MESSAGE - 1 && s == EncodePlainResponse(Some(data)) + rest
    ensures DecodePlainResponse(s) == Got(None, rest) <==> exists extra :: FrameWith(s, [0], extra, rest)
    ensures DecodePlainResponse(s).Failed? && ReadFrame(s, 1, MAX_MESSAGE).Got? ==>
              DecodePlainResponse(s) == Failed(InvalidData)
  {
    if |data| <= MAX_MESSAGE - 1 { ChunkThatFits(data, rest); }
    if DecodePlainResponse(s) == Got(Some(data), rest) { DecodedChunk(s, data, rest); }
    NotFoundExactly(s, rest);
  }
}
