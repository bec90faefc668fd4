/** The serving side: inbound blob and range requests answered from the store. */
module RangeServer {
  import opened Bytes
  import opened Words

  /** Panic stands for a slice whose end is before its start. */
  datatype Served = Have(data: Bytes) | NotFound | Panic

  function ServeRange(stored: Option<Bytes>, offset: Word, length: Word): Served {
    match stored
    case None => NotFound
    case Some(data) =>
      var end := Min((offset + length) % WORD, |data|);
      if offset >= |data| then NotFound
      else if end < offset then Panic
      else Have(data[offset..end])
  }

  function ServeBlob(stored: Option<Bytes>): Served {
    match stored
    case None => NotFound
    case Some(data) => Have(data)
  }

  /** What reaches the requester: bytes or nothing. */
  function AsReply(s: Served): Option<Bytes> {
    if s.Have? then Some(s.data) else None
  }

  /** Exactly the requests that start inside the blob and wrap past the last word break the
      handler; every other request is answered with the slice, or with nothing. */
  lemma ServeRangeIsSlice(blob: Bytes, offset: Word, length: Word)
    ensures ServeRange(Some(blob), offset, length).Panic? <==> offset < |blob| && offset + length >= WORD
    ensures !ServeRange(Some(blob), offset, length).Panic? ==>
              AsReply(ServeRange(Some(blob), offset, length)) == Slice(blob, offset, length)
  {
    if offset + length >= WORD { assert (offset + length) % WORD == offset + length - WORD < offset; }
  }

  /** Without the blob there is nothing to serve: no empty answer, and no panic either. */
  lemma NothingStoredNothingServed(offset: Word, length: Word)
    ensures ServeRange(None, offset, length) == NotFound && ServeBlob(None) == NotFound
  {
  }

  /** A whole-blob request is answered with exactly what is stored, or with not found. */
  lemma ServeBlobIsStored(stored: Option<Bytes>)
    ensures AsReply(ServeBlob(stored)) == stored && !ServeBlob(stored).Panic?
  {
  }

  /** A request that breaks it. */
  lemma WrappingRangePanics()
    ensures ServeRange(Some([7, 8]), 1, U64_MAX) == Panic
  {
    assert (1 + U64_MAX) % WORD == 0;
  }

  const SPOT_CHECK_EVERY: nat := 10
  const NO_PAYMENT: Bytes := seq(32, i => 0)

  class Handler {
    var requestCounter: Word

    constructor ()
      ensures requestCounter == 0
    {
      requestCounter := 0;
    }

    method IsSpotCheck() returns (check: bool)
      modifies this
      ensures check == (old(requestCounter) % SPOT_CHECK_EVERY == 0)
      ensures requestCounter == (old(requestCounter) + 1) % WORD
    {
      check := requestCounter % SPOT_CHECK_EVERY == 0;
      requestCounter := (requestCounter + 1) % WORD;
    }

    /** Unpaid requests are refused at every tenth count; paid ones never touch the counter. */
    method HandleRange(stored: Option<Bytes>, offset: Word, length: Word, paymentDigest: Bytes) returns (r: Served)
      modifies this
      ensures r == if paymentDigest == NO_PAYMENT && old(requestCounter) % SPOT_CHECK_EVERY == 0
                   then NotFound else ServeRange(stored, offset, length)
      ensures requestCounter ==
              if paymentDigest == NO_PAYMENT then (old(requestCounter) + 1) % WORD else old(requestCounter)
    {
      if paymentDigest == NO_PAYMENT {
        var check := IsSpotCheck();
        if check { return NotFound; }
      }
      if stored.None? { return NotFound; }
      var data := stored.value;
      var start := offset;
      var end := Min((start + length) % WORD, |data|);
      if start >= |data| { return NotFound; }
      if end < start { return Panic; }
      r := Have(data[start..end]);
    }

    method HandleBlob(stored: Option<Bytes>, paymentDigest: Bytes) returns (r: Served)
      modifies this
      ensures r == if paymentDigest == NO_PAYMENT && old(requestCounter) % SPOT_CHECK_EVERY == 0
                   then NotFound else ServeBlob(stored)
      ensures requestCounter ==
              if paymentDigest == NO_PAYMENT then (old(requestCounter) + 1) % WORD else old(requestCounter)
    {
      if paymentDigest == NO_PAYMENT {
        var check := IsSpotCheck();
        if check { return NotFound; }
      }
      r := if stored.Some? then Have(stored.value) else NotFound;
    }
  }
}
