/** Honest peers that lose replies: exactly when a fetch still delivers the blob. */
module FetchLosses {
  import opened Bytes
  import opened Fetch
  import opened FetchTheorems

  /** Every reply of this peer is the exact slice, or lost. */
  ghost predicate HonestPeer(swarm: Swarm, blob: Bytes, p: nat) {
    forall r: nat, o: nat, l: nat :: swarm(r, p, o, l).None? || swarm(r, p, o, l) == Slice(blob, o, l)
  }

  ghost predicate HonestAmong(swarm: Swarm, blob: Bytes, working: seq<nat>) {
    forall i :: 0 <= i < |working| ==> HonestPeer(swarm, blob, working[i])
  }

  // ----- Parallel -----

  /** A chunk inside the blob is asked for in window w of peer i, and not answered. */
  predicate Hole(swarm: Swarm, blob: Bytes, working: seq<nat>, w: nat, i: nat)
    requires i < |working|
  {
    Offset(w, |working|, i) < |blob| && Reply(swarm, working, w, i).None?
  }

  ghost predicate NoHole(swarm: Swarm, blob: Bytes, working: seq<nat>) {
    forall w: nat, i: nat :: i < |working| ==> !Hole(swarm, blob, working, w, i)
  }

  lemma NoHoleServes(swarm: Swarm, blob: Bytes, working: seq<nat>)
    requires HonestAmong(swarm, blob, working) && NoHole(swarm, blob, working)
    ensures Served(swarm, blob, working)
  {
    forall w: nat, i: nat | i < |working|
      ensures Reply(swarm, working, w, i) == Slice(blob, Offset(w, |working|, i), CHUNK)
    {
      assert HonestPeer(swarm, blob, working[i]) && !Hole(swarm, blob, working, w, i);
    }
  }

  lemma {:induction false} WindowsApart(w: nat, v: nat, n: nat)
    requires w < v
    ensures Times(w, n) + n <= Times(v, n)
    decreases v
  {
    if w + 1 < v { WindowsApart(w, v - 1, n); } else { assert Times(w + 1, n) == Times(w, n) + n; }
  }

  /** No chunk reaches over the hole. */
  ghost predicate Avoids(chunks: seq<Chunk>, hole: nat) {
    forall k :: 0 <= k < |chunks| ==>
      && |chunks[k].data| <= CHUNK
      && (chunks[k].offset + CHUNK <= hole || chunks[k].offset > hole)
  }

  lemma ChunkAvoids(n: nat, w: nat, i: nat, v: nat, j: nat)
    requires i < n && j < n && (w, i) != (v, j)
    ensures var here, hole := Offset(w, n, i), Offset(v, n, j); here + CHUNK <= hole || here > hole
  {
    if w < v { WindowsApart(w, v, n); }
    if v < w { WindowsApart(v, w, n); }
  }

  lemma {:induction false} RepliesAvoid(swarm: Swarm, blob: Bytes, working: seq<nat>, w: nat, i: nat, v: nat, j: nat)
    requires HonestAmong(swarm, blob, working) && i <= |working| && j < |working|
    requires Hole(swarm, blob, working, v, j)
    ensures Avoids(Replies(swarm, working, w, i), Offset(v, |working|, j))
    decreases |working| - i
  {
    if i < |working| {
      RepliesAvoid(swarm, blob, working, w, i + 1, v, j);
      if NonEmpty(Reply(swarm, working, w, i)) {
        assert HonestPeer(swarm, blob, working[i]);
        ChunkAvoids(|working|, w, i, v, j);
      }
    }
  }

  lemma {:induction false} JoinStopsAtHole(data: Bytes, chunks: seq<Chunk>, hole: nat)
    requires |data| <= hole && Avoids(chunks, hole)
    ensures |Join(data, chunks).data| <= hole
    decreases |chunks|
  {
    if chunks != [] && chunks[0].offset == |data| { JoinStopsAtHole(data + chunks[0].data, chunks[1..], hole); }
  }

  /** What is handed on never reaches past a hole. */
  lemma {:induction false} WindowsStopAtHole(swarm: Swarm, pay: Payments, blob: Bytes, working: seq<nat>, w: nat,
                                             data: Bytes, err: Option<string>, v: nat, j: nat)
    requires HonestAmong(swarm, blob, working) && j < |working| && Hole(swarm, blob, working, v, j)
    requires |data| <= MAX_TOTAL && |data| <= Offset(v, |working|, j)
    ensures var r := Windows(swarm, pay, working, w, data, err).verdict;
            r.Submit? ==> |r.data| <= Offset(v, |working|, j)
    decreases MAX_TOTAL - |data|
  {
    var chunks := Replies(swarm, working, w, 0);
    RepliesAvoid(swarm, blob, working, w, 0, v, j);
    JoinStopsAtHole(data, chunks, Offset(v, |working|, j));
    if chunks != [] {
      var joined := Join(data, chunks);
      if !joined.gap && |joined.data| <= MAX_TOTAL && !joined.eof {
        JoinGrows(data, chunks);
        WindowsStopAtHole(swarm, pay, blob, working, w + 1, joined.data,
                          Or(err, FirstError(pay, w + 1, working)), v, j);
      }
    }
  }

  /** Exactly the blob is handed on. */
  ghost predicate HandsOn(v: Verdict, blob: Bytes) { v.Submit? && v.data == blob }

  lemma HonestWorkersHaveContent(swarm: Swarm, blob: Bytes, k: nat)
    requires HonestAmong(swarm, blob, Working(swarm, k)) && Working(swarm, k) != []
    ensures blob != []
  {
    var first := Working(swarm, k)[0];
    WorkingAnswers(swarm, k);
    assert first in Working(swarm, k) && HonestPeer(swarm, blob, first);
    assert swarm(0, first, 0, PROBE) == Slice(blob, 0, PROBE);
  }

  /** With honest peers at work, whatever replies are lost: the parallel fetch delivers the
      blob exactly when somebody works, it is at most 512 MiB, and every chunk request whose
      offset lies inside it is answered. */
  lemma ParallelDeliversDespiteLosses(swarm: Swarm, pay: Payments, blob: Bytes, peers: nat)
    requires HonestAmong(swarm, blob, Working(swarm, Probers(peers)))
    ensures HandsOn(Parallel(swarm, pay, peers).verdict, blob) <==>
            && Working(swarm, Probers(peers)) != []
            && |blob| <= MAX_TOTAL
            && NoHole(swarm, blob, Working(swarm, Probers(peers)))
  {
    var working := Working(swarm, Probers(peers));
    if working != [] {
      HonestWorkersHaveContent(swarm, blob, Probers(peers));
      if NoHole(swarm, blob, working) {
        NoHoleServes(swarm, blob, working);
        ServedDelivers(swarm, pay, blob, peers);
      } else {
        var v: nat, j: nat :| j < |working| && Hole(swarm, blob, working, v, j);
        WindowsStopAtHole(swarm, pay, blob, working, 0, [], FirstError(pay, 0, Upto(Probers(peers))), v, j);
      }
    }
  }

  // ----- What is handed on instead -----

  /** The first chunk inside the blob that is not answered. */
  ghost predicate FirstHole(swarm: Swarm, blob: Bytes, working: seq<nat>, w: nat, i: nat) {
    && i < |working|
    && Hole(swarm, blob, working, w, i)
    && forall v: nat, j: nat :: j < |working| && Offset(v, |working|, j) < Offset(w, |working|, i) ==>
         Reply(swarm, working, v, j).Some?
  }

  /** Joining a window whose chunks come from the i-th to before the m-th, where the window ends
      or a reply is lost. */
  lemma {:induction false} JoinUpTo(swarm: Swarm, blob: Bytes, working: seq<nat>, window: nat, i: nat, m: nat)
    requires HonestAmong(swarm, blob, working) && i <= m <= |working|
    requires Offset(window, |working|, m) <= |blob|
    requires forall j: nat :: i <= j < m ==> Reply(swarm, working, window, j).Some?
    requires m < |working| ==> Reply(swarm, working, window, m).None?
    ensures var n := |working|;
            Join(Take(blob, Offset(window, n, i)), Replies(swarm, working, window, i)) ==
            Joined(Take(blob, Offset(window, n, m)), m < n && Replies(swarm, working, window, m + 1) != [], false)
    decreases m - i
  {
    var n := |working|;
    var chunks := Replies(swarm, working, window, i);
    if i < m {
      assert HonestPeer(swarm, blob, working[i]);
      var here, after := Offset(window, n, i), Offset(window, n, i + 1);
      var r := Reply(swarm, working, window, i);
      assert after == here + CHUNK <= Offset(window, n, m) && r == Slice(blob, here, CHUNK);
      assert Take(blob, here) + r.value == Take(blob, after);
      assert chunks[0] == Chunk(here, r.value) && chunks[1..] == Replies(swarm, working, window, i + 1);
      JoinUpTo(swarm, blob, working, window, i + 1, m);
    } else if m < n {
      assert chunks == Replies(swarm, working, window, m + 1);
      RepliesSorted(swarm, working, window, m + 1);
    }
  }

  /** Past the hole nothing is joined any more: what there is, is handed on. */
  lemma AfterHole(swarm: Swarm, pay: Payments, working: seq<nat>, window: nat, data: Bytes, err: Option<string>)
    requires |data| <= MAX_TOTAL && |data| < Offset(window, |working|, 0)
    ensures var v := Windows(swarm, pay, working, window, data, err).verdict;
            if data == [] then v.GiveUp? else v.Submit? && v.data == data
  {
    RepliesSorted(swarm, working, window, 0);
  }

  /** With the first hole at offset `hole`, what comes before it is handed on. */
  predicate HandsOnUpTo(v: Verdict, blob: Bytes, hole: nat) {
    if hole == 0 then v.GiveUp? else v.Submit? && v.data == Take(blob, hole)
  }

  lemma {:induction false} WindowsToHole(swarm: Swarm, pay: Payments, blob: Bytes, working: seq<nat>, window: nat,
                                         data: Bytes, err: Option<string>, w: nat, i: nat)
    requires HonestAmong(swarm, blob, working) && FirstHole(swarm, blob, working, w, i)
    requires Offset(w, |working|, i) <= MAX_TOTAL && window <= w && |data| <= MAX_TOTAL
    requires data == Take(blob, Offset(window, |working|, 0))
    ensures HandsOnUpTo(Windows(swarm, pay, working, window, data, err).verdict, blob, Offset(w, |working|, i))
    decreases w - window
  {
    var n, hole := |working|, Offset(w, |working|, i);
    var next := Or(err, FirstError(pay, window + 1, working));
    if window < w {
      WindowsApart(window, w, n);
      JoinUpTo(swarm, blob, working, window, 0, n);
      assert Reply(swarm, working, window, 0).Some? && HonestPeer(swarm, blob, working[0]);
      assert Offset(window, n, n) == Offset(window + 1, n, 0) by { assert Times(window + 1, n) == Times(window,
             n) + n; }
      WindowsOnce(swarm, pay, working, window, data, err);
      WindowsToHole(swarm, pay, blob, working, window + 1, Take(blob, Offset(window, n, n)), next, w, i);
    } else {
      WindowOfHole(swarm, pay, blob, working, data, err, w, i);
    }
  }

  lemma WindowOfHole(swarm: Swarm, pay: Payments, blob: Bytes, working: seq<nat>, data: Bytes, err: Option<string>,
                     w: nat, i: nat)
    requires HonestAmong(swarm, blob, working) && FirstHole(swarm, blob, working, w, i)
    requires Offset(w, |working|, i) <= MAX_TOTAL && |data| <= MAX_TOTAL
    requires data == Take(blob, Offset(w, |working|, 0))
    ensures HandsOnUpTo(Windows(swarm, pay, working, w, data, err).verdict, blob, Offset(w, |working|, i))
  {
    var n, hole := |working|, Offset(w, |working|, i);
    JoinUpTo(swarm, blob, working, w, 0, i);
    var chunks := Replies(swarm, working, w, 0);
    if chunks != [] && !Join(data, chunks).gap {
      WindowsOnce(swarm, pay, working, w, data, err);
      assert Times(w + 1, n) == Times(w, n) + n;
      AfterHole(swarm, pay, working, w + 1, Take(blob, hole), Or(err, FirstError(pay, w + 1, working)));
    } else if chunks == [] {
      NothingJoined(swarm, working, w, i);
    }
  }

  lemma NothingJoined(swarm: Swarm, working: seq<nat>, w: nat, i: nat)
    requires i < |working| && Replies(swarm, working, w, 0) == []
    ensures forall j: nat :: j < i ==> !NonEmpty(Reply(swarm, working, w, j))
  {
    forall j: nat | j < i ensures !NonEmpty(Reply(swarm, working, w, j)) { RepliesFrom(swarm, working, w, 0, j); }
  }

  lemma {:induction false} RepliesFrom(swarm: Swarm, working: seq<nat>, w: nat, from: nat, j: nat)
    requires from <= j < |working| && Replies(swarm, working, w, from) == []
    ensures !NonEmpty(Reply(swarm, working, w, j))
    decreases j - from
  {
    if from < j { RepliesFrom(swarm, working, w, from + 1, j); }
  }

  /** With honest peers at work and the first hole within 512 MiB: exactly the blob up to the
      hole is handed on, or nothing if that is its very beginning. */
  lemma ParallelHandsOnUpToHole(swarm: Swarm, pay: Payments, blob: Bytes, peers: nat, w: nat, i: nat)
    requires HonestAmong(swarm, blob, Working(swarm, Probers(peers)))
    requires FirstHole(swarm, blob, Working(swarm, Probers(peers)), w, i)
    requires Offset(w, |Working(swarm, Probers(peers))|, i) <= MAX_TOTAL
    ensures HandsOnUpTo(Parallel(swarm, pay, peers).verdict, blob, Offset(w, |Working(swarm, Probers(peers))|, i))
  {
    var working := Working(swarm, Probers(peers));
    WindowsToHole(swarm, pay, blob, working, 0, [], FirstError(pay, 0, Upto(Probers(peers))), w, i);
  }

  // ----- Sequential -----

  /** Every request of the one-peer form that lies inside the blob is answered. */
  ghost predicate NoTailHole(swarm: Swarm, blob: Bytes, p: nat) {
    forall k: nat :: k * RANGE_CHUNK < |blob| ==> TailReply(swarm, p, k).Some?
  }

  lemma {:induction false} TailStopsAtHole(swarm: Swarm, pay: Payments, blob: Bytes, p: nat, k: nat, data: Bytes,
                                           err: Option<string>, hole: nat)
    requires HonestPeer(swarm, blob, p) && TailReply(swarm, p, hole).None?
    requires k <= hole && |data| == k * RANGE_CHUNK
    ensures var v := RangeTail(swarm, pay, p, k, data, err); v.Submit? ==> |v.data| <= hole * RANGE_CHUNK
    decreases MAX_CHUNKS - k
  {
    if k < MAX_CHUNKS {
      var reply := TailReply(swarm, p, k);
      assert reply == swarm(k, p, k * RANGE_CHUNK, RANGE_CHUNK);
      if reply.Some? {
        assert reply == Slice(blob, k * RANGE_CHUNK, RANGE_CHUNK) && k < hole;
        if |reply.value| >= RANGE_CHUNK {
          TailStopsAtHole(swarm, pay, blob, p, k + 1, data + reply.value, Or(err, pay(k, p)), hole);
        }
      }
    }
  }

  lemma NoTailHoleServes(swarm: Swarm, blob: Bytes, p: nat)
    requires HonestPeer(swarm, blob, p) && NoTailHole(swarm, blob, p)
    ensures TailServed(swarm, blob, p)
  {
    forall k: nat
      ensures TailReply(swarm, p, k) == Slice(blob, k * RANGE_CHUNK, RANGE_CHUNK)
    {
      assert TailReply(swarm, p, k) == swarm(k, p, k * RANGE_CHUNK, RANGE_CHUNK);
    }
  }

  /** The one-peer form delivers the blob exactly when somebody answers, it is below 512 MiB,
      and the first peer that answers at all answers every request inside it. */
  lemma SequentialDeliversDespiteLosses(swarm: Swarm, pay: Payments, blob: Bytes, peers: nat)
    requires var first := FirstAnswer(swarm, peers, 0); first.Some? ==> HonestPeer(swarm, blob, first.value)
    ensures var first := FirstAnswer(swarm, peers, 0);
            HandsOn(Sequential(swarm, pay, peers, 0), blob) <==>
            && first.Some?
            && |blob| < MAX_TOTAL
            && NoTailHole(swarm, blob, first.value)
  {
    var first := FirstAnswer(swarm, peers, 0);
    SequentialUsesFirst(swarm, pay, peers, 0);
    if first.Some? {
      var p := first.value;
      if NoTailHole(swarm, blob, p) {
        NoTailHoleServes(swarm, blob, p);
        TailServedDelivers(swarm, pay, blob, peers);
      } else {
        var hole: nat :| hole * RANGE_CHUNK < |blob| && TailReply(swarm, p, hole).None?;
        HoleIsMissed(swarm, pay, blob, peers, p, hole);
      }
    }
  }

  lemma HoleIsMissed(swarm: Swarm, pay: Payments, blob: Bytes, peers: nat, p: nat, hole: nat)
    requires p < peers && HonestPeer(swarm, blob, p) && swarm(0, p, 0, RANGE_CHUNK).Some?
    requires hole * RANGE_CHUNK < |blob| && TailReply(swarm, p, hole).None?
    ensures !HandsOn(Sequential(swarm, pay, peers, p), blob)
  {
    var reply := swarm(0, p, 0, RANGE_CHUNK);
    assert reply == Slice(blob, 0, RANGE_CHUNK);
    assert hole > 0 by { assert TailReply(swarm, p, 0) == reply; }
    if |reply.value| >= RANGE_CHUNK { TailStopsAtHole(swarm, pay, blob, p, 1, reply.value, pay(0, p), hole); }
  }

  lemma {:induction false} TailToHole(swarm: Swarm, pay: Payments, blob: Bytes, p: nat, k: nat, data: Bytes,
                                      err: Option<string>, hole: nat)
    requires HonestPeer(swarm, blob, p) && TailReply(swarm, p, hole).None? && hole * RANGE_CHUNK < |blob|
    requires forall q: nat :: q < hole ==> TailReply(swarm, p, q).Some?
    requires k <= hole < MAX_CHUNKS && data == blob[..k * RANGE_CHUNK]
    ensures var v := RangeTail(swarm, pay, p, k, data, err); v.Submit? && v.data == blob[..hole * RANGE_CHUNK]
    decreases hole - k
  {
    var reply := TailReply(swarm, p, k);
    assert reply == swarm(k, p, k * RANGE_CHUNK, RANGE_CHUNK);
    if k < hole {
      assert reply == Slice(blob, k * RANGE_CHUNK, RANGE_CHUNK);
      assert data + reply.value == blob[..(k + 1) * RANGE_CHUNK];
      TailToHole(swarm, pay, blob, p, k + 1, data + reply.value, Or(err, pay(k, p)), hole);
    }
  }

  /** The one-peer form hands on exactly the blob up to the first request inside it that the
      peer, if honest, does not answer. */
  lemma SequentialHandsOnUpToHole(swarm: Swarm, pay: Payments, blob: Bytes, peers: nat, hole: nat)
    requires FirstAnswer(swarm, peers, 0).Some? && HonestPeer(swarm, blob, FirstAnswer(swarm, peers, 0).value)
    requires var p := FirstAnswer(swarm, peers, 0).value;
             && hole < MAX_CHUNKS && hole * RANGE_CHUNK < |blob| && TailReply(swarm, p, hole).None?
             && forall q: nat :: q < hole ==> TailReply(swarm, p, q).Some?
    ensures HandsOn(Sequential(swarm, pay, peers, 0), blob[..hole * RANGE_CHUNK])
  {
    var p := FirstAnswer(swarm, peers, 0).value;
    SequentialUsesFirst(swarm, pay, peers, 0);
    var reply := swarm(0, p, 0, RANGE_CHUNK);
    assert TailReply(swarm, p, 0) == reply == Slice(blob, 0, RANGE_CHUNK);
    assert reply.value == blob[..RANGE_CHUNK];
    TailToHole(swarm, pay, blob, p, 1, reply.value, pay(0, p), hole);
  }
}
