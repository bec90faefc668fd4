/** Assembling a blob from range replies: window by window from several peers, and chunk by
    chunk from one. The peers, the payments and time are one environment; a reply is bytes
    or nothing (not found, an error, a refused send or a timeout). */
module Fetch {
  import opened Bytes

  const CHUNK: nat := 65536
  const MAX_PARALLEL: nat := 5
  const MAX_TOTAL: nat := 512 * 1024 * 1024
  const PROBE: nat := 8
  const RANGE_CHUNK: nat := 256 * 1024
  const MAX_CHUNKS: nat := 2048

  /** (round, peer, offset, length) -> reply. */
  type Swarm = (nat, nat, nat, nat) -> Option<Bytes>

  /** (round, peer) -> the error of resolving the payment, if any. */
  type Payments = (nat, nat) -> Option<string>

  /** What is handed on for verification, with the first payment error. */
  datatype Verdict = GiveUp | Submit(data: Bytes, paymentError: Option<string>)

  function Or(a: Option<string>, b: Option<string>): Option<string> {
    if a.Some? then a else b
  }

  /** The first error among peers[from..] in one round. */
  function FirstError(pay: Payments, round: nat, peers: seq<nat>): Option<string> {
    if peers == [] then None else Or(pay(round, peers[0]), FirstError(pay, round, peers[1..]))
  }

  function NonEmpty(r: Option<Bytes>): bool { r.Some? && r.value != [] }

  // ----- Parallel: several peers, one window after another -----

  /** The peers, out of the first k, that answer the probe with at least one byte. */
  function Working(swarm: Swarm, k: nat): seq<nat> {
    if k == 0 then []
    else Working(swarm, k - 1) + (if NonEmpty(swarm(0, k - 1, 0, PROBE)) then [k - 1] else [])
  }

  /** Where the i-th of n peers reads in a window, in steps of CHUNK. */
  function Offset(window: nat, n: nat, i: nat): nat { (Times(window, n) + i) * CHUNK }

  function Times(a: nat, b: nat): nat {
    if a == 0 then 0 else Times(a - 1, b) + b
  }

  lemma {:induction false} TimesIsProduct(a: nat, b: nat)
    ensures Times(a, b) == a * b
  {
    if a > 0 { TimesIsProduct(a - 1, b); }
  }

  datatype Chunk = Chunk(offset: nat, data: Bytes)

  function Reply(swarm: Swarm, working: seq<nat>, window: nat, i: nat): Option<Bytes>
    requires i < |working|
  {
    swarm(window + 1, working[i], Offset(window, |working|, i), CHUNK)
  }

  /** The non-empty replies of a window, from the i-th peer on. */
  function Replies(swarm: Swarm, working: seq<nat>, window: nat, i: nat): seq<Chunk>
    requires i <= |working|
    decreases |working| - i
  {
    if i == |working| then [] else
    var rest := Replies(swarm, working, window, i + 1);
    var r := Reply(swarm, working, window, i);
    if NonEmpty(r) then [Chunk(Offset(window, |working|, i), r.value)] + rest else rest
  }

  datatype Joined = Joined(data: Bytes, gap: bool, eof: bool)

  /** Append chunks as long as each starts where the data ends. */
  function Join(data: Bytes, chunks: seq<Chunk>): Joined
    decreases |chunks|
  {
    if chunks == [] then Joined(data, false, false)
    else if chunks[0].offset != |data| then Joined(data, true, false)
    else
      var rest := Join(data + chunks[0].data, chunks[1..]);
      rest.(eof := rest.eof || |chunks[0].data| < CHUNK)
  }

  datatype Run = Run(verdict: Verdict, windows: nat)

  function Finish(data: Bytes, err: Option<string>, windows: nat): Run {
    Run(if data == [] then GiveUp else Submit(data, err), windows)
  }

  function Windows(swarm: Swarm, pay: Payments, working: seq<nat>, window: nat, data: Bytes, err: Option<string>): Run
    requires |data| <= MAX_TOTAL
    decreases MAX_TOTAL - |data|
  {
    var err' := Or(err, FirstError(pay, window + 1, working));
    var chunks := Replies(swarm, working, window, 0);
    if chunks == [] then Finish(data, err', window + 1) else
    var j := Join(data, chunks);
    if j.gap then Finish(j.data, err', window + 1)
    else if |j.data| > MAX_TOTAL then Run(GiveUp, window + 1)
    else if j.eof then Run(Submit(j.data, err'), window + 1)
    else
      JoinGrows(data, chunks);
      Windows(swarm, pay, working, window + 1, j.data, err')
  }

  function Probers(peers: nat): nat { Min(peers, MAX_PARALLEL) }

  function Upto(k: nat): seq<nat> { seq(k, i => i) }

  function Parallel(swarm: Swarm, pay: Payments, peers: nat): Run {
    var working := Working(swarm, Probers(peers));
    if working == [] then Run(GiveUp, 0)
    else Windows(swarm, pay, working, 0, [], FirstError(pay, 0, Upto(Probers(peers))))
  }

  /** Chunk requests sent: one to every working peer in every window. */
  function Requests(swarm: Swarm, pay: Payments, peers: nat): nat {
    Times(Parallel(swarm, pay, peers).windows, |Working(swarm, Probers(peers))|)
  }

  /** The amounts payments were resolved for: the probes' and the chunks'. */
  function Asked(swarm: Swarm, pay: Payments, peers: nat): nat {
    Probers(peers) * PROBE + Requests(swarm, pay, peers) * CHUNK
  }

  /** A window that neither ends nor breaks the fetch brings at least one full chunk. */
  lemma {:induction false} JoinGrows(data: Bytes, chunks: seq<Chunk>)
    requires chunks != [] && !Join(data, chunks).gap && !Join(data, chunks).eof
    ensures |Join(data, chunks).data| >= |data| + CHUNK
    ensures |data| == chunks[0].offset
    decreases |chunks|
  {
    if chunks[1..] != [] { JoinGrows(data + chunks[0].data, chunks[1..]); }
  }

  ghost predicate SortedFrom(cs: seq<Chunk>, low: nat) {
    && (forall k :: 0 <= k < |cs| ==> low <= cs[k].offset)
    && (forall k, l :: 0 <= k < l < |cs| ==> cs[k].offset < cs[l].offset)
  }

  lemma SortedCons(c: Chunk, cs: seq<Chunk>, next: nat)
    requires SortedFrom(cs, next) && c.offset < next
    ensures SortedFrom([c] + cs, c.offset) && SortedFrom(cs, c.offset)
  {
  }

  /** Replies come in peer order, so sorting them by offset changes nothing. */
  lemma {:induction false} RepliesSorted(swarm: Swarm, working: seq<nat>, window: nat, i: nat)
    requires i <= |working|
    ensures SortedFrom(Replies(swarm, working, window, i), Offset(window, |working|, i))
    decreases |working| - i
  {
    if i < |working| {
      RepliesSorted(swarm, working, window, i + 1);
      var r := Reply(swarm, working, window, i);
      var c := Chunk(Offset(window, |working|, i), if NonEmpty(r) then r.value else []);
      SortedCons(c, Replies(swarm, working, window, i + 1), Offset(window, |working|, i + 1));
    }
  }

  // ----- The imperative form -----

  method FetchWindow(swarm: Swarm, working: seq<nat>, window: nat) returns (chunks: seq<Chunk>)
    ensures chunks == Replies(swarm, working, window, 0)
  {
    var n := |working|;
    var baseOffset := window * n * CHUNK;
    TimesIsProduct(window, n);
    chunks := [];
    for i := 0 to n
      invariant chunks + Replies(swarm, working, window, i) == Replies(swarm, working, window, 0)
    {
      var offset := baseOffset + i * CHUNK;
      assert offset == Offset(window, n, i);
      var reply := swarm(window + 1, working[i], offset, CHUNK);
      if reply.Some? && reply.value != [] { chunks := chunks + [Chunk(offset, reply.value)]; }
    }
  }

  method JoinChunks(before: Bytes, chunks: seq<Chunk>) returns (j: Joined)
    ensures j == Join(before, chunks)
  {
    var data, expected, hasGap, eof := before, |before|, false, false;
    var k := 0;
    while k < |chunks| && !hasGap
      invariant k <= |chunks| && expected == |data|
      invariant var rest := Join(data, chunks[k..]);
                Join(before, chunks) == rest.(eof := rest.eof || eof)
      invariant hasGap ==> k < |chunks| && chunks[k].offset != |data|
      decreases |chunks| - k, !hasGap
    {
      if chunks[k].offset != expected {
        hasGap := true;
      } else {
        expected := chunks[k].offset + |chunks[k].data|;
        if |chunks[k].data| < CHUNK { eof := true; }
        data := data + chunks[k].data;
        assert chunks[k..][1..] == chunks[k + 1..];
        k := k + 1;
      }
    }
    j := Joined(data, hasGap, eof);
  }

  method Probe(swarm: Swarm, peers: nat) returns (working: seq<nat>)
    ensures working == Working(swarm, Probers(peers))
  {
    working := [];
    for p := 0 to Probers(peers)
      invariant working == Working(swarm, p)
    {
      var reply := swarm(0, p, 0, PROBE);
      if reply.Some? && reply.value != [] { working := working + [p]; }
    }
  }

  /** Runs for as long as windows come back whole. */
  method FetchWindows(swarm: Swarm, pay: Payments, working: seq<nat>, probeError: Option<string>)
    returns (r: Verdict, windows: nat)
    ensures Run(r, windows) == Windows(swarm, pay, working, 0, [], probeError)
  {
    var paymentErr := probeError;
    var data: Bytes := [];
    windows := 0;
    while true
      invariant |data| <= MAX_TOTAL
      invariant Windows(swarm, pay, working, windows, data, paymentErr)
             == Windows(swarm, pay, working, 0, [], probeError)
      decreases MAX_TOTAL - |data|
    {
      ghost var before := data;
      paymentErr := Or(paymentErr, FirstError(pay, windows + 1, working));
      var chunks := FetchWindow(swarm, working, windows);
      windows := windows + 1;
      if chunks == [] { break; }
      var joined := JoinChunks(data, chunks);
      data := joined.data;
      if joined.gap { break; }
      if |data| > MAX_TOTAL { return GiveUp, windows; }
      if joined.eof { return Submit(data, paymentErr), windows; }
      JoinGrows(before, chunks);
    }
    r := if data == [] then GiveUp else Submit(data, paymentErr);
  }

  /** Also counts the chunk requests and adds up what the payments were resolved for. */
  method FetchParallel(swarm: Swarm, pay: Payments, peers: nat) returns (r: Verdict, requests: nat, asked: nat)
    ensures r == Parallel(swarm, pay, peers).verdict
    ensures requests == Requests(swarm, pay, peers) && asked == Asked(swarm, pay, peers)
  {
    var probeErr := FirstError(pay, 0, Upto(Probers(peers)));
    var working := Probe(swarm, peers);
    var windows := 0;
    r := GiveUp;
    if working != [] { r, windows := FetchWindows(swarm, pay, working, probeErr); }
    requests, asked := Tally(windows, |working|, Probers(peers));
  }

  method Tally(windows: nat, workers: nat, probers: nat) returns (requests: nat, asked: nat)
    ensures requests == Times(windows, workers) && asked == probers * PROBE + requests * CHUNK
  {
    TimesIsProduct(windows, workers);
    requests := windows * workers;
    asked := probers * PROBE + requests * CHUNK;
  }

  // ----- Sequential: one peer, one chunk after another -----

  /** k chunks are in; the offset is k * RANGE_CHUNK. */
  function RangeTail(swarm: Swarm, pay: Payments, peer: nat, k: nat, data: Bytes, err: Option<string>): Verdict
    decreases MAX_CHUNKS - k
  {
    if k >= MAX_CHUNKS then GiveUp else
    var err' := Or(err, pay(k, peer));
    match swarm(k, peer, k * RANGE_CHUNK, RANGE_CHUNK)
    case None => Submit(data, err')
    case Some(next) =>
      if next == [] then Submit(data, err')
      else if |next| < RANGE_CHUNK then Submit(data + next, err')
      else RangeTail(swarm, pay, peer, k + 1, data + next, err')
  }

  /** The first of peers[from..] that answers serves the whole fetch. */
  function Sequential(swarm: Swarm, pay: Payments, peers: nat, from: nat): Verdict
    requires from <= peers
    decreases peers - from
  {
    if from == peers then GiveUp else
    match swarm(0, from, 0, RANGE_CHUNK)
    case None => Sequential(swarm, pay, peers, from + 1)
    case Some(chunk) =>
      if |chunk| < RANGE_CHUNK then Submit(chunk, pay(0, from))
      else RangeTail(swarm, pay, from, 1, chunk, pay(0, from))
  }

  method FetchSequential(swarm: Swarm, pay: Payments, peers: nat) returns (r: Verdict)
    ensures r == Sequential(swarm, pay, peers, 0)
  {
    for p := 0 to peers
      invariant Sequential(swarm, pay, peers, p) == Sequential(swarm, pay, peers, 0)
    {
      var paymentErr := pay(0, p);
      var first := swarm(0, p, 0, RANGE_CHUNK);
      if first.Some? {
        if |first.value| < RANGE_CHUNK { return Submit(first.value, paymentErr); }
        r := FetchTail(swarm, pay, p, first.value, paymentErr);
        return;
      }
    }
    r := GiveUp;
  }

  method FetchTail(swarm: Swarm, pay: Payments, peer: nat, first: Bytes, firstErr: Option<string>) returns (r: Verdict)
    ensures r == RangeTail(swarm, pay, peer, 1, first, firstErr)
  {
    var data, offset, paymentErr := first, RANGE_CHUNK, firstErr;
    ghost var k := 1;
    while true
      invariant 1 <= k <= MAX_CHUNKS && offset == k * RANGE_CHUNK
      invariant RangeTail(swarm, pay, peer, k, data, paymentErr) == RangeTail(swarm, pay, peer, 1, first, firstErr)
      decreases MAX_CHUNKS - k
    {
      if offset / RANGE_CHUNK >= MAX_CHUNKS { return GiveUp; }
      paymentErr := Or(paymentErr, pay(offset / RANGE_CHUNK, peer));
      var next := swarm(offset / RANGE_CHUNK, peer, offset, RANGE_CHUNK);
      if next.None? || next.value == [] { break; }
      data := data + next.value;
      offset := offset + RANGE_CHUNK;
      k := k + 1;
      if |next.value| < RANGE_CHUNK { break; }
    }
    r := Submit(data, paymentErr);
  }

  // ----- Whole blob: the first peer that answers -----

  function Whole(replies: nat -> Option<Bytes>, pay: nat -> Option<string>, peers: nat, from: nat): Verdict
    requires from <= peers
    decreases peers - from
  {
    if from == peers then GiveUp
    else if replies(from).Some? then Submit(replies(from).value, pay(from))
    else Whole(replies, pay, peers, from + 1)
  }

  method FetchWhole(replies: nat -> Option<Bytes>, pay: nat -> Option<string>, peers: nat) returns (r: Verdict)
    ensures r == Whole(replies, pay, peers, 0)
  {
    for p := 0 to peers
      invariant Whole(replies, pay, peers, p) == Whole(replies, pay, peers, 0)
    {
      var reply := replies(p);
      if reply.Some? { return Submit(reply.value, pay(p)); }
    }
    r := GiveUp;
  }
}
