/** What assembled fetches deliver: bounds against any peers, a prefix of the blob from
    honest ones, and the whole blob when nothing is lost. */
module FetchTheorems {
  import opened Bytes
  import opened Fetch

  // ----- Any peers -----

  lemma {:induction false} WorkingIsShort(swarm: Swarm, k: nat)
    ensures |Working(swarm, k)| <= k
  {
    if k > 0 { WorkingIsShort(swarm, k - 1); }
  }

  /** The first reply of a window starts at the window's offset or later. */
  lemma FirstReplyOffset(swarm: Swarm, working: seq<nat>, window: nat)
    requires Replies(swarm, working, window, 0) != []
    ensures Replies(swarm, working, window, 0)[0].offset >= Times(window, |working|) * CHUNK
  {
    RepliesSorted(swarm, working, window, 0);
  }

  /** After `window` windows that all came back whole, the data is long enough to have
      reached the last of them. */
  ghost predicate Reached(data: Bytes, n: nat, window: nat) {
    window > 0 ==> |data| >= Times(window - 1, n) * CHUNK + CHUNK
  }

  lemma {:induction false} WindowsBounded(swarm: Swarm, pay: Payments, working: seq<nat>, window: nat, data: Bytes,
                                          err: Option<string>)
    requires |data| <= MAX_TOTAL && working != [] && Reached(data, |working|, window)
    ensures Times(Windows(swarm, pay, working, window, data, err).windows, |working|) <= 8191 + 2 * |working|
    decreases MAX_TOTAL - |data|
  {
    var n := |working|;
    assert Times(window + 1, n) == Times(window, n) + n;
    assert window > 0 ==> Times(window, n) == Times(window - 1, n) + n;
    var chunks := Replies(swarm, working, window, 0);
    if chunks != [] {
      var j := Join(data, chunks);
      if !j.gap && |j.data| <= MAX_TOTAL && !j.eof {
        JoinGrows(data, chunks);
        FirstReplyOffset(swarm, working, window);
        WindowsBounded(swarm, pay, working, window + 1, j.data, Or(err, FirstError(pay, window + 1, working)));
      }
    }
  }

  /** Against any peers whatsoever the parallel fetch ends, with at most 8191 + 2n chunk
      requests and payments resolved for that many chunks and the probes. */
  lemma ParallelSpendBounded(swarm: Swarm, pay: Payments, peers: nat)
    ensures var n := |Working(swarm, Probers(peers))|;
            && n <= MAX_PARALLEL
            && Requests(swarm, pay, peers) <= 8191 + 2 * n
            && Asked(swarm, pay, peers) <= PROBE * Probers(peers) + (8191 + 2 * n) * CHUNK
  {
    WorkingIsShort(swarm, Probers(peers));
    var working := Working(swarm, Probers(peers));
    if working != [] {
      WindowsBounded(swarm, pay, working, 0, [], FirstError(pay, 0, Upto(Probers(peers))));
    }
  }

  // ----- Honest peers: every reply is the exact slice, or lost -----

  ghost predicate Honest(swarm: Swarm, blob: Bytes) {
    forall r: nat, p: nat, o: nat, l: nat :: swarm(r, p, o, l).None? || swarm(r, p, o, l) == Slice(blob, o, l)
  }

  /** Every reply the fetches ever ask this peer for arrives. */
  ghost predicate LosslessPeer(swarm: Swarm, blob: Bytes, p: nat) {
    forall r: nat, o: nat, l: nat :: l <= RANGE_CHUNK ==> swarm(r, p, o, l) == Slice(blob, o, l)
  }

  ghost predicate Lossless(swarm: Swarm, blob: Bytes, peers: seq<nat>) {
    forall i :: 0 <= i < |peers| ==> LosslessPeer(swarm, blob, peers[i])
  }

  ghost predicate CutFrom(cs: seq<Chunk>, blob: Bytes) {
    forall k :: 0 <= k < |cs| ==> Some(cs[k].data) == Slice(blob, cs[k].offset, CHUNK)
  }

  lemma {:induction false} RepliesCut(swarm: Swarm, blob: Bytes, working: seq<nat>, window: nat, i: nat)
    requires Honest(swarm, blob) && i <= |working|
    ensures CutFrom(Replies(swarm, working, window, i), blob)
    decreases |working| - i
  {
    if i < |working| { RepliesCut(swarm, blob, working, window, i + 1); }
  }

  /** Joining honest chunks to a prefix gives a prefix; a short chunk means the very end. */
  lemma {:induction false} JoinPrefix(data: Bytes, chunks: seq<Chunk>, blob: Bytes)
    requires data <= blob && CutFrom(chunks, blob)
    ensures Join(data, chunks).data <= blob
    ensures Join(data, chunks).eof && !Join(data, chunks).gap ==> Join(data, chunks).data == blob
    decreases |chunks|
  {
    if chunks != [] && chunks[0].offset == |data| {
      var c := chunks[0];
      assert Some(c.data) == Slice(blob, c.offset, CHUNK);
      assert data + c.data == blob[..|data| + |c.data|];
      JoinPrefix(data + c.data, chunks[1..], blob);
      if |c.data| < CHUNK {
        assert data + c.data == blob;
        if !Join(data, chunks).gap { NothingAfterEnd(data + c.data, chunks[1..], blob); }
      }
    }
  }

  lemma NothingAfterEnd(data: Bytes, chunks: seq<Chunk>, blob: Bytes)
    requires data == blob && CutFrom(chunks, blob) && !Join(data, chunks).gap
    ensures Join(data, chunks).data == blob
  {
    if chunks != [] { assert Some(chunks[0].data) == Slice(blob, chunks[0].offset, CHUNK); }
  }

  ghost predicate SubmitsPrefix(v: Verdict, blob: Bytes) {
    v.Submit? ==> v.data <= blob
  }

  lemma {:induction false} WindowsPrefix(swarm: Swarm, pay: Payments, blob: Bytes, working: seq<nat>, window: nat,
                                         data: Bytes, err: Option<string>)
    requires Honest(swarm, blob) && |data| <= MAX_TOTAL && data <= blob
    ensures SubmitsPrefix(Windows(swarm, pay, working, window, data, err).verdict, blob)
    decreases MAX_TOTAL - |data|
  {
    var chunks := Replies(swarm, working, window, 0);
    RepliesCut(swarm, blob, working, window, 0);
    JoinPrefix(data, chunks, blob);
    if chunks != [] {
      var j := Join(data, chunks);
      if !j.gap && |j.data| <= MAX_TOTAL && !j.eof {
        JoinGrows(data, chunks);
        WindowsPrefix(swarm, pay, blob, working, window + 1, j.data, Or(err, FirstError(pay, window + 1, working)));
      }
    }
  }

  lemma {:induction false} RangeTailPrefix(swarm: Swarm, pay: Payments, blob: Bytes, peer: nat, k: nat, data: Bytes,
                                           err: Option<string>)
    requires Honest(swarm, blob) && data <= blob && |data| == k * RANGE_CHUNK
    ensures SubmitsPrefix(RangeTail(swarm, pay, peer, k, data, err), blob)
    decreases MAX_CHUNKS - k
  {
    if k < MAX_CHUNKS {
      var reply := swarm(k, peer, k * RANGE_CHUNK, RANGE_CHUNK);
      if reply.Some? {
        assert reply == Slice(blob, k * RANGE_CHUNK, RANGE_CHUNK);
        var next := reply.value;
        assert data + next == blob[..|data| + |next|];
        if |next| >= RANGE_CHUNK {
          RangeTailPrefix(swarm, pay, blob, peer, k + 1, data + next, Or(err, pay(k, peer)));
        }
      }
    }
  }

  lemma {:induction false} SequentialPrefix(swarm: Swarm, pay: Payments, blob: Bytes, peers: nat, from: nat)
    requires Honest(swarm, blob) && from <= peers
    ensures SubmitsPrefix(Sequential(swarm, pay, peers, from), blob)
    decreases peers - from
  {
    if from < peers {
      var reply := swarm(0, from, 0, RANGE_CHUNK);
      if reply.None? {
        SequentialPrefix(swarm, pay, blob, peers, from + 1);
      } else {
        assert reply == Slice(blob, 0, RANGE_CHUNK);
        if |reply.value| >= RANGE_CHUNK { RangeTailPrefix(swarm, pay, blob, from, 1, reply.value, pay(0, from)); }
      }
    }
  }

  /** With honest peers, whatever is lost or whoever answers, only a prefix of the blob is
      ever handed on, by either range form. */
  lemma HonestFetchesArePrefixes(swarm: Swarm, pay: Payments, blob: Bytes, peers: nat)
    requires Honest(swarm, blob)
    ensures SubmitsPrefix(Parallel(swarm, pay, peers).verdict, blob)
    ensures SubmitsPrefix(Sequential(swarm, pay, peers, 0), blob)
  {
    var working := Working(swarm, Probers(peers));
    if working != [] { WindowsPrefix(swarm, pay, blob, working, 0, [], FirstError(pay, 0, Upto(Probers(peers)))); }
    SequentialPrefix(swarm, pay, blob, peers, 0);
  }

  // ----- Nothing lost -----

  /** Every chunk the fetch may ask the peers at work for comes as the slice, or is past the end. */
  ghost predicate Served(swarm: Swarm, blob: Bytes, working: seq<nat>) {
    forall window: nat, i: nat :: i < |working| ==>
      Reply(swarm, working, window, i) == Slice(blob, Offset(window, |working|, i), CHUNK)
  }

  lemma LosslessServes(swarm: Swarm, blob: Bytes, working: seq<nat>)
    requires Lossless(swarm, blob, working)
    ensures Served(swarm, blob, working)
  {
    forall window: nat, i: nat | i < |working|
      ensures Reply(swarm, working, window, i) == Slice(blob, Offset(window, |working|, i), CHUNK)
    {
      assert LosslessPeer(swarm, blob, working[i]);
    }
  }

  /** The blob as far as the first `offset` bytes. */
  function Take(blob: Bytes, offset: nat): Bytes { blob[..Min(offset, |blob|)] }

  lemma {:induction false} RepliesPastEnd(swarm: Swarm, blob: Bytes, working: seq<nat>, window: nat, i: nat)
    requires Served(swarm, blob, working) && i <= |working| && Offset(window, |working|, i) >= |blob|
    ensures Replies(swarm, working, window, i) == []
    decreases |working| - i
  {
    if i < |working| { RepliesPastEnd(swarm, blob, working, window, i + 1); }
  }

  /** A lossless window extends the prefix to its end, and reports the end of the blob
      exactly when the blob ends inside it on a broken chunk. */
  lemma {:induction false} JoinLossless(swarm: Swarm, blob: Bytes, working: seq<nat>, window: nat, i: nat)
    requires Served(swarm, blob, working) && i <= |working|
    ensures var here, next := Offset(window, |working|, i), Offset(window, |working|, |working|);
            Join(Take(blob, here), Replies(swarm, working, window, i)) ==
            Joined(Take(blob, next), false, here < |blob| < next && |blob| % CHUNK != 0)
    decreases |working| - i
  {
    var here, next := Offset(window, |working|, i), Offset(window, |working|, |working|);
    if here >= |blob| {
      RepliesPastEnd(swarm, blob, working, window, i);
    } else if i < |working| {
      var r := Reply(swarm, working, window, i);
      assert r == Slice(blob, here, CHUNK);
      var after := Offset(window, |working|, i + 1);
      assert after == here + CHUNK <= next;
      assert Take(blob, here) + r.value == Take(blob, after);
      var rest := Replies(swarm, working, window, i + 1);
      var chunks := Replies(swarm, working, window, i);
      assert chunks[0] == Chunk(here, r.value) && chunks[1..] == rest;
      JoinLossless(swarm, blob, working, window, i + 1);
    }
  }

  /** Where a lossless fetch stands before a window. */
  ghost predicate OnTrack(blob: Bytes, n: nat, window: nat, data: Bytes) {
    && data == Take(blob, Times(window, n) * CHUNK)
    && (window > 0 ==> Times(window - 1, n) * CHUNK < |blob|)
    && (Times(window, n) * CHUNK >= |blob| ==> |blob| % CHUNK == 0)
  }

  lemma StopsInTime(blob: Bytes, n: nat, window: nat, data: Bytes)
    requires OnTrack(blob, n, window, data)
    ensures Times(window + 1, n) * CHUNK <= |blob| + 2 * n * CHUNK
  {
    assert window > 0 ==> Times(window, n) == Times(window - 1, n) + n;
  }

  lemma StaysOnTrack(blob: Bytes, n: nat, window: nat)
    requires Offset(window, n, 0) < |blob| && (|blob| >= Offset(window, n, n) || |blob| % CHUNK == 0)
    ensures OnTrack(blob, n, window + 1, Take(blob, Offset(window, n, n)))
  {
    assert Times(window + 1, n) == Times(window, n) + n;
  }

  lemma FirstReply(swarm: Swarm, blob: Bytes, working: seq<nat>, window: nat)
    requires Served(swarm, blob, working) && working != [] && Offset(window, |working|, 0) < |blob|
    ensures Replies(swarm, working, window, 0) != []
  {
    assert Reply(swarm, working, window, 0) == Slice(blob, Offset(window, |working|, 0), CHUNK);
  }

  /** The least number of whole windows of n chunks that hold this many bytes. */
  predicate Cover(windows: int, n: nat, bytes: nat) {
    windows > 0 && Times(windows - 1, n) * CHUNK < bytes <= Times(windows, n) * CHUNK
  }

  /** The windows asked: those that cover the blob, and one more to find that there is nothing
      left if it ends on a whole chunk; or, for a blob too long, those that cover one byte more
      than is allowed. */
  predicate WindowsAsked(windows: nat, n: nat, length: nat) {
    if length > MAX_TOTAL then Cover(windows, n, MAX_TOTAL + 1)
    else Cover(if length % CHUNK == 0 then windows - 1 else windows, n, length)
  }

  /** A run that hands on the blob if it is not too long, with exactly the windows it takes. */
  predicate Completes(run: Run, blob: Bytes, n: nat) {
    && (if |blob| <= MAX_TOTAL then run.verdict.Submit? && run.verdict.data == blob else run.verdict.GiveUp?)
    && WindowsAsked(run.windows, n, |blob|)
    && Times(run.windows, n) * CHUNK <= |blob| + 2 * n * CHUNK
  }

  /** What a lossless window that starts inside the blob makes of it. */
  lemma WindowJoined(swarm: Swarm, blob: Bytes, working: seq<nat>, window: nat)
    requires Served(swarm, blob, working) && working != [] && Offset(window, |working|, 0) < |blob|
    ensures var here, next := Offset(window, |working|, 0), Offset(window, |working|, |working|);
            var chunks := Replies(swarm, working, window, 0);
            && chunks != []
            && Join(Take(blob, here), chunks) == Joined(Take(blob, next), false, |blob| < next && |blob| % CHUNK != 0)
  {
    FirstReply(swarm, blob, working, window);
    JoinLossless(swarm, blob, working, window, 0);
  }

  /** A short end of the blob lies inside the window, a full one at its end: either way the
      blob is complete. */
  lemma EndOfBlob(blob: Bytes, window: nat, n: nat)
    requires n > 0
    ensures var next := Offset(window, n, n);
            && (|blob| <= next ==> Take(blob, next) == blob)
            && (|Take(blob, next)| > MAX_TOTAL ==> |blob| > MAX_TOTAL)
  {
  }

  /** One window without a gap. */
  lemma WindowsOnce(swarm: Swarm, pay: Payments, working: seq<nat>, window: nat, data: Bytes, err: Option<string>)
    requires |data| <= MAX_TOTAL && Replies(swarm, working, window, 0) != []
    requires !Join(data, Replies(swarm, working, window, 0)).gap
    ensures var j := Join(data, Replies(swarm, working, window, 0));
            var next := Or(err, FirstError(pay, window + 1, working));
            Windows(swarm, pay, working, window, data, err) ==
            if |j.data| > MAX_TOTAL then Run(GiveUp, window + 1)
            else if j.eof then Run(Submit(j.data, next), window + 1)
            else Windows(swarm, pay, working, window + 1, j.data, next)
  {
  }

  lemma {:induction false} WindowsLossless(swarm: Swarm, pay: Payments, blob: Bytes, working: seq<nat>, window: nat,
                                           data: Bytes, err: Option<string>)
    requires Served(swarm, blob, working) && working != [] && blob != []
    requires |data| <= MAX_TOTAL && OnTrack(blob, |working|, window, data)
    ensures Completes(Windows(swarm, pay, working, window, data, err), blob, |working|)
    decreases MAX_TOTAL - |data|
  {
    var n := |working|;
    var here, next := Offset(window, n, 0), Offset(window, n, n);
    StopsInTime(blob, n, window, data);
    if here >= |blob| {
      RepliesPastEnd(swarm, blob, working, window, 0);
      assert data == blob;
    } else {
      WindowJoined(swarm, blob, working, window);
      EndOfBlob(blob, window, n);
      WindowsOnce(swarm, pay, working, window, data, err);
      var longer := Take(blob, next);
      if |longer| <= MAX_TOTAL && !(|blob| < next && |blob| % CHUNK != 0) {
        StaysOnTrack(blob, n, window);
        JoinGrows(data, Replies(swarm, working, window, 0));
        WindowsLossless(swarm, pay, blob, working, window + 1, longer, Or(err, FirstError(pay, window + 1, working)));
      }
    }
  }

  /** The peers at work are those probed that answered with a byte. */
  lemma {:induction false} WorkingAnswers(swarm: Swarm, k: nat)
    ensures forall p :: p in Working(swarm, k) <==> 0 <= p < k && NonEmpty(swarm(0, p, 0, PROBE))
  {
    if k > 0 { WorkingAnswers(swarm, k - 1); }
  }

  lemma WorkersHaveContent(swarm: Swarm, blob: Bytes, k: nat)
    requires Lossless(swarm, blob, Working(swarm, k)) && Working(swarm, k) != []
    ensures blob != []
  {
    var first := Working(swarm, k)[0];
    WorkingAnswers(swarm, k);
    assert first in Working(swarm, k) && LosslessPeer(swarm, blob, first);
    assert swarm(0, first, 0, PROBE) == Slice(blob, 0, PROBE);
  }

  lemma AskedBound(probers: nat, n: nat, requests: nat, length: nat)
    requires requests * CHUNK <= length + 2 * n * CHUNK
    ensures probers * PROBE + requests * CHUNK <= length + n * (2 * CHUNK) + probers * PROBE
  {
  }

  /** If every chunk comes, the parallel fetch hands on the blob exactly if it is not too long. */
  lemma ServedDelivers(swarm: Swarm, pay: Payments, blob: Bytes, peers: nat)
    requires Served(swarm, blob, Working(swarm, Probers(peers))) && blob != []
    ensures var v := Parallel(swarm, pay, peers).verdict;
            && (v.Submit? <==> Working(swarm, Probers(peers)) != [] && |blob| <= MAX_TOTAL)
            && (v.Submit? ==> v.data == blob)
    ensures Asked(swarm, pay, peers) <=
            |blob| + |Working(swarm, Probers(peers))| * (2 * CHUNK) + Probers(peers) * PROBE
    ensures Working(swarm, Probers(peers)) != [] ==>
              WindowsAsked(Parallel(swarm, pay, peers).windows, |Working(swarm, Probers(peers))|, |blob|)
  {
    var working := Working(swarm, Probers(peers));
    if working != [] {
      assert OnTrack(blob, |working|, 0, []);
      WindowsLossless(swarm, pay, blob, working, 0, [], FirstError(pay, 0, Upto(Probers(peers))));
    }
    AskedBound(Probers(peers), |working|, Requests(swarm, pay, peers), |blob|);
  }

  /** If those of the first five peers that answer the probe lose nothing, and there is one,
      the parallel fetch hands on exactly the blob, for every length up to 512 MiB and no
      other. What payments are asked for exceeds the blob by at most two chunks for each of
      them and the probes. */
  lemma ParallelDeliversExactly(swarm: Swarm, pay: Payments, blob: Bytes, peers: nat)
    requires Lossless(swarm, blob, Working(swarm, Probers(peers)))
    ensures var v := Parallel(swarm, pay, peers).verdict;
            && (v.Submit? <==> Working(swarm, Probers(peers)) != [] && |blob| <= MAX_TOTAL)
            && (v.Submit? ==> v.data == blob && blob != [])
    ensures Asked(swarm, pay, peers) <=
            |blob| + |Working(swarm, Probers(peers))| * (2 * CHUNK) + Probers(peers) * PROBE
  {
    var working := Working(swarm, Probers(peers));
    if working != [] {
      WorkersHaveContent(swarm, blob, Probers(peers));
      LosslessServes(swarm, blob, working);
      ServedDelivers(swarm, pay, blob, peers);
    }
  }

  /** How many chunk requests such a fetch makes, and what it asks payments for, to the last
      one: n peers at work are asked in each of the windows, which are the least that cover the
      blob, and one more if it ends on a whole chunk. Nobody at work, nothing but the probes. */
  lemma ParallelCountsExactly(swarm: Swarm, pay: Payments, blob: Bytes, peers: nat) returns (windows: nat)
    requires Lossless(swarm, blob, Working(swarm, Probers(peers)))
    ensures var n := |Working(swarm, Probers(peers))|;
            && (if n == 0 then windows == 0 else
                if |blob| > MAX_TOTAL then windows > 0 && (windows - 1) * n * CHUNK <= MAX_TOTAL < windows * n * CHUNK
                else
                  var full := if |blob| % CHUNK == 0 then windows - 1 else windows;
                  full > 0 && (full - 1) * n * CHUNK < |blob| <= full * n * CHUNK)
            && Requests(swarm, pay, peers) == windows * n
            && Asked(swarm, pay, peers) == Min(peers, 5) * 8 + windows * n * 65536
  {
    var working := Working(swarm, Probers(peers));
    windows := Parallel(swarm, pay, peers).windows;
    TimesIsProduct(windows, |working|);
    if working != [] {
      WorkersHaveContent(swarm, blob, Probers(peers));
      LosslessServes(swarm, blob, working);
      ServedDelivers(swarm, pay, blob, peers);
      TimesIsProduct(windows - 1, |working|);
      if windows > 1 { TimesIsProduct(windows - 2, |working|); }
    }
  }

  /** The reply to the k-th request of the one-peer form. */
  function TailReply(swarm: Swarm, peer: nat, k: nat): Option<Bytes> {
    swarm(k, peer, k * RANGE_CHUNK, RANGE_CHUNK)
  }

  ghost predicate TailServed(swarm: Swarm, blob: Bytes, peer: nat) {
    forall k: nat :: TailReply(swarm, peer, k) == Slice(blob, k * RANGE_CHUNK, RANGE_CHUNK)
  }

  lemma {:induction false} RangeTailLossless(swarm: Swarm, pay: Payments, blob: Bytes, peer: nat, k: nat,
                                             data: Bytes, err: Option<string>)
    requires TailServed(swarm, blob, peer) && k <= MAX_CHUNKS && k * RANGE_CHUNK <= |blob|
             && data == blob[..k * RANGE_CHUNK]
    ensures var v := RangeTail(swarm, pay, peer, k, data, err);
            && (v.Submit? <==> |blob| < MAX_TOTAL)
            && (v.Submit? ==> v.data == blob)
    decreases MAX_CHUNKS - k
  {
    if k < MAX_CHUNKS {
      var reply := TailReply(swarm, peer, k);
      assert reply == Slice(blob, k * RANGE_CHUNK, RANGE_CHUNK);
      if reply.Some? {
        var next := reply.value;
        assert data + next == blob[..|data| + |next|];
        if |next| >= RANGE_CHUNK {
          RangeTailLossless(swarm, pay, blob, peer, k + 1, data + next, Or(err, pay(k, peer)));
        } else {
          assert data + next == blob;
        }
      } else {
        assert data == blob;
      }
    }
  }

  /** The first of peers[from..] that answers the first request. */
  function FirstAnswer(swarm: Swarm, peers: nat, from: nat): Option<nat>
    requires from <= peers
    decreases peers - from
  {
    if from == peers then None
    else if swarm(0, from, 0, RANGE_CHUNK).Some? then Some(from)
    else FirstAnswer(swarm, peers, from + 1)
  }

  lemma {:induction false} SequentialUsesFirst(swarm: Swarm, pay: Payments, peers: nat, from: nat)
    requires from <= peers
    ensures var first := FirstAnswer(swarm, peers, from);
            && (first.None? ==> Sequential(swarm, pay, peers, from) == GiveUp)
            && (first.Some? ==>
                  && from <= first.value < peers
                  && swarm(0, first.value, 0, RANGE_CHUNK).Some?
                  && Sequential(swarm, pay, peers, from) == Sequential(swarm, pay, peers, first.value))
    decreases peers - from
  {
    if from < peers { SequentialUsesFirst(swarm, pay, peers, from + 1); }
  }

  /** If the first peer that answers serves every request, the one-peer form hands on the blob
      exactly if it is below 512 MiB. */
  lemma TailServedDelivers(swarm: Swarm, pay: Payments, blob: Bytes, peers: nat)
    requires var first := FirstAnswer(swarm, peers, 0); first.Some? ==> TailServed(swarm, blob, first.value)
    ensures var v := Sequential(swarm, pay, peers, 0);
            && (v.Submit? <==> FirstAnswer(swarm, peers, 0).Some? && |blob| < MAX_TOTAL)
            && (v.Submit? ==> v.data == blob && blob != [])
  {
    var first := FirstAnswer(swarm, peers, 0);
    SequentialUsesFirst(swarm, pay, peers, 0);
    if first.Some? {
      var p := first.value;
      var reply := TailReply(swarm, p, 0);
      assert reply == swarm(0, p, 0, RANGE_CHUNK) == Slice(blob, 0, RANGE_CHUNK);
      if |reply.value| >= RANGE_CHUNK {
        assert reply.value == blob[..RANGE_CHUNK];
        RangeTailLossless(swarm, pay, blob, p, 1, reply.value, pay(0, p));
      } else {
        assert reply.value == blob;
      }
    }
  }

  /** If the first peer that answers at all loses nothing, the one-peer form delivers the same
      bytes, but gives up at exactly 512 MiB already. */
  lemma SequentialDeliversExactly(swarm: Swarm, pay: Payments, blob: Bytes, peers: nat)
    requires var first := FirstAnswer(swarm, peers, 0); first.Some? ==> LosslessPeer(swarm, blob, first.value)
    ensures var v := Sequential(swarm, pay, peers, 0);
            && (v.Submit? <==> FirstAnswer(swarm, peers, 0).Some? && |blob| < MAX_TOTAL)
            && (v.Submit? ==> v.data == blob && blob != [])
  {
    TailServedDelivers(swarm, pay, blob, peers);
  }
}
