/** Client, codec and server together: what each of the three ways to fetch a blob from
    connected peers delivers when nothing is lost on the way. */
module FetchForms {
  import opened Bytes
  import opened Words
  import opened Wire
  import opened Codecs
  import opened RangeServer
  import opened Fetch
  import opened FetchTheorems
  import opened FetchPayments

  function AsResponse(s: Served): Response { if s.Have? then Some(s.data) else None }

  /** A range request written, read, served from what a peer stores, and its response written
      and read. */
  function RangeOverWire(stored: Option<Bytes>, request: RangeRequest): Option<Bytes> {
    match DecodeRangeRequest(EncodeRangeRequest(request))
    case Failed(_) => None
    case Got(arrived, _) =>
      match DecodePlainResponse(EncodePlainResponse(AsResponse(ServeRange(stored, arrived.offset, arrived.length))))
      case Failed(_) => None
      case Got(response, _) => response
  }

  function BlobOverWire(stored: Option<Bytes>): Option<Bytes> {
    match DecodeBlobResponse(EncodeBlobResponse(AsResponse(ServeBlob(stored))))
    case Failed(_) => None
    case Got(response, _) => response
  }

  /** A range request comes back as the slice exactly when it starts past the end, or it does
      not wrap past the last machine word and the slice fits one message. */
  lemma RangeOverWireExactly(blob: Bytes, request: RangeRequest)
    ensures RangeOverWire(Some(blob), request) == Slice(blob, request.offset, request.length) <==>
            || request.offset >= |blob|
            || (request.offset + request.length < WORD
                && Min(request.length, |blob| - request.offset) <= MAX_MESSAGE - 1)
  {
    var wire := EncodeRangeRequest(request);
    RangeRequestRoundTrip(request, []);
    assert wire + [] == wire;
    ServeRangeIsSlice(blob, request.offset, request.length);
    var response := AsResponse(ServeRange(Some(blob), request.offset, request.length));
    var back := EncodePlainResponse(response);
    assert back + [] == back;
    if response.Some? {
      PlainResponseRoundTrip(response.value, []);
      DeliveredIsShort(back);
    } else {
      NotFoundRoundTrip([]);
    }
  }

  /** From a peer that does not store the blob nothing comes back, of either request. */
  lemma NothingOverWire(request: RangeRequest)
    ensures RangeOverWire(None, request) == None && BlobOverWire(None) == None
  {
    var wire := EncodeRangeRequest(request);
    RangeRequestRoundTrip(request, []);
    assert wire + [] == wire;
    NothingStoredNothingServed(request.offset, request.length);
    var plain, whole := EncodePlainResponse(None), EncodeBlobResponse(None);
    assert plain + [] == plain && whole + [] == whole;
    NotFoundRoundTrip([]);
  }

  /** A whole blob crosses the wire exactly when it fits one message. */
  lemma BlobOverWireExactly(blob: Bytes)
    ensures BlobOverWire(Some(blob)) == Some(blob) <==> |blob| <= MAX_MESSAGE - 5
  {
    var wire := EncodeBlobResponse(Some(blob));
    assert wire + [] == wire;
    ServeBlobIsStored(Some(blob));
    BlobResponseRoundTrip(blob, []);
    DeliveredIsShort(wire);
  }

  /** What each connected peer has stored under the id. */
  type Stores = nat -> Option<Bytes>

  /** Peers store the blob or nothing, as content ids without collisions have it. */
  ghost predicate OnlyThe(stores: Stores, blob: Bytes) { forall p :: stores(p).Some? ==> stores(p) == Some(blob) }

  /** Every peer answers from its store and every message arrives; requests that would wrap past
      the last machine word are never sent. */
  ghost predicate Connected(swarm: Swarm, stores: Stores, blobId: Digest, payment: Digest) {
    forall r: nat, p: nat, o: nat, l: nat :: l <= RANGE_CHUNK ==>
      swarm(r, p, o, l) ==
      if o + l < WORD then RangeOverWire(stores(p), RangeRequest(blobId, o, l, payment)) else None
  }

  lemma ReplyOf(swarm: Swarm, stores: Stores, blob: Bytes, blobId: Digest, payment: Digest,
                r: nat, p: nat, o: nat, l: nat)
    requires Connected(swarm, stores, blobId, payment) && OnlyThe(stores, blob)
    requires |blob| + RANGE_CHUNK < WORD && l <= RANGE_CHUNK
    ensures swarm(r, p, o, l) == if stores(p).Some? then Slice(blob, o, l) else None
  {
    if o + l < WORD {
      if stores(p).Some? {
        RangeOverWireExactly(blob, RangeRequest(blobId, o, l, payment));
      } else {
        NothingOverWire(RangeRequest(blobId, o, l, payment));
      }
    } else {
      assert swarm(r, p, o, l) == None;
    }
  }

  /** Peers reached through codecs and server meet the assumption of the lossless results. */
  lemma HolderIsLossless(swarm: Swarm, stores: Stores, blob: Bytes, blobId: Digest, payment: Digest, p: nat)
    requires Connected(swarm, stores, blobId, payment) && OnlyThe(stores, blob)
    requires |blob| + RANGE_CHUNK < WORD && stores(p).Some?
    ensures LosslessPeer(swarm, blob, p)
  {
    forall r: nat, o: nat, l: nat | l <= RANGE_CHUNK
      ensures swarm(r, p, o, l) == Slice(blob, o, l)
    {
      ReplyOf(swarm, stores, blob, blobId, payment, r, p, o, l);
    }
  }

  /** Exactly the blob is handed on for verification. */
  ghost predicate Delivers(v: Verdict, blob: Bytes) {
    v.Submit? && v.data == blob
  }

  /** One of the first k peers stores the blob. */
  ghost predicate Somebody(stores: Stores, k: nat) { exists p: nat :: p < k && stores(p).Some? }

  /** Over the wire and with nothing lost, whichever peers store the blob: the parallel form
      delivers every blob from one byte to 512 MiB that one of the first five peers stores, the
      sequential form every blob below 512 MiB that anybody stores, the whole-blob form every
      blob up to 64 MiB less the header that anybody stores; each delivers no other. */
  lemma FormsAgree(swarm: Swarm, pay: Payments, whole: nat -> Option<Bytes>, wholePay: nat -> Option<string>,
                   stores: Stores, blob: Bytes, blobId: Digest, payment: Digest, peers: nat)
    requires Connected(swarm, stores, blobId, payment) && OnlyThe(stores, blob) && |blob| + RANGE_CHUNK < WORD
    requires forall p :: whole(p) == BlobOverWire(stores(p))
    ensures Delivers(Parallel(swarm, pay, peers).verdict, blob) <==>
            Somebody(stores, Probers(peers)) && 0 < |blob| <= MAX_TOTAL
    ensures Delivers(Sequential(swarm, pay, peers, 0), blob) <==> Somebody(stores, peers) && 0 < |blob| < MAX_TOTAL
    ensures Delivers(Whole(whole, wholePay, peers, 0), blob) <==> Somebody(stores, peers) && |blob| <= MAX_MESSAGE - 5
  {
    ParallelOverWire(swarm, pay, stores, blob, blobId, payment, peers);
    SequentialOverWire(swarm, pay, stores, blob, blobId, payment, peers);
    NothingOverWire(RangeRequest(blobId, 0, 0, payment));
    WholeOverWire(whole, wholePay, stores, blob, peers);
  }

  lemma ParallelOverWire(swarm: Swarm, pay: Payments, stores: Stores, blob: Bytes, blobId: Digest, payment: Digest,
                         peers: nat)
    requires Connected(swarm, stores, blobId, payment) && OnlyThe(stores, blob) && |blob| + RANGE_CHUNK < WORD
    ensures Delivers(Parallel(swarm, pay, peers).verdict, blob) <==>
            Somebody(stores, Probers(peers)) && 0 < |blob| <= MAX_TOTAL
  {
    var working := Working(swarm, Probers(peers));
    WorkersAreHolders(swarm, stores, blob, blobId, payment, Probers(peers));
    assert Lossless(swarm, blob, working) by {
      forall i | 0 <= i < |working|
        ensures LosslessPeer(swarm, blob, working[i])
      {
        assert working[i] in working;
        HolderIsLossless(swarm, stores, blob, blobId, payment, working[i]);
      }
    }
    ParallelDeliversExactly(swarm, pay, blob, peers);
    if working != [] { assert working[0] in working; }
  }

  lemma WorkersAreHolders(swarm: Swarm, stores: Stores, blob: Bytes, blobId: Digest, payment: Digest, k: nat)
    requires Connected(swarm, stores, blobId, payment) && OnlyThe(stores, blob) && |blob| + RANGE_CHUNK < WORD
    ensures forall p: nat :: p in Working(swarm, k) <==> p < k && stores(p).Some? && blob != []
  {
    WorkingAnswers(swarm, k);
    forall p: nat | p < k
      ensures NonEmpty(swarm(0, p, 0, PROBE)) <==> stores(p).Some? && blob != []
    {
      ReplyOf(swarm, stores, blob, blobId, payment, 0, p, 0, PROBE);
    }
  }

  lemma {:induction false} FirstAnswerHolds(swarm: Swarm, stores: Stores, blob: Bytes, blobId: Digest,
                                            payment: Digest, peers: nat, from: nat)
    requires Connected(swarm, stores, blobId, payment) && OnlyThe(stores, blob) && |blob| + RANGE_CHUNK < WORD
    requires from <= peers
    ensures var first := FirstAnswer(swarm, peers, from);
            && (first.Some? ==> stores(first.value).Some? && from <= first.value < peers && blob != [])
            && (first.None? ==> blob == [] || forall p: nat :: from <= p < peers ==> stores(p).None?)
    decreases peers - from
  {
    if from < peers {
      ReplyOf(swarm, stores, blob, blobId, payment, 0, from, 0, RANGE_CHUNK);
      FirstAnswerHolds(swarm, stores, blob, blobId, payment, peers, from + 1);
    }
  }

  lemma SequentialOverWire(swarm: Swarm, pay: Payments, stores: Stores, blob: Bytes, blobId: Digest, payment: Digest,
                           peers: nat)
    requires Connected(swarm, stores, blobId, payment) && OnlyThe(stores, blob) && |blob| + RANGE_CHUNK < WORD
    ensures Delivers(Sequential(swarm, pay, peers, 0), blob) <==> Somebody(stores, peers) && 0 < |blob| < MAX_TOTAL
  {
    var first := FirstAnswer(swarm, peers, 0);
    FirstAnswerHolds(swarm, stores, blob, blobId, payment, peers, 0);
    if first.Some? { HolderIsLossless(swarm, stores, blob, blobId, payment, first.value); }
    SequentialDeliversExactly(swarm, pay, blob, peers);
  }

  /** The least of these peers with a reply, if there is one. */
  lemma {:induction false} LeastReply(replies: nat -> Option<Bytes>, k: nat, peers: nat) returns (p: nat)
    requires k < peers && replies(k).Some?
    ensures p <= k && replies(p).Some? && forall q: nat :: q < p ==> replies(q).None?
    decreases k
  {
    p := k;
    if q: nat :| q < k && replies(q).Some? { p := LeastReply(replies, q, peers); }
  }

  lemma WholeOverWire(whole: nat -> Option<Bytes>, pay: nat -> Option<string>, stores: Stores, blob: Bytes, peers: nat)
    requires OnlyThe(stores, blob) && BlobOverWire(None) == None
    requires forall p :: whole(p) == BlobOverWire(stores(p))
    ensures Delivers(Whole(whole, pay, peers, 0), blob) <==> Somebody(stores, peers) && |blob| <= MAX_MESSAGE - 5
  {
    WholeTakesFirst(whole, pay, peers, 0);
    BlobOverWireExactly(blob);
    if k: nat :| k < peers && whole(k).Some? {
      var p := LeastReply(whole, k, peers);
      assert stores(p) == Some(blob);
    }
    if Somebody(stores, peers) && |blob| <= MAX_MESSAGE - 5 {
      var k: nat :| k < peers && stores(k).Some?;
      assert whole(k).Some?;
    }
  }
}
