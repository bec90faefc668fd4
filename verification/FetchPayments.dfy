/** Which payment error a fetch reports, told from the payments it made alone. */
module FetchPayments {
  import opened Bytes
  import opened Fetch
  import opened FetchTheorems

  /** The first peer of a round whose payment failed is this one. */
  ghost predicate FirstOfRound(pay: Payments, round: nat, peers: seq<nat>, i: nat) {
    && i < |peers|
    && pay(round, peers[i]).Some?
    && forall j: nat :: j < i ==> pay(round, peers[j]).None?
  }

  ghost predicate AllPaid(pay: Payments, round: nat, peers: seq<nat>) {
    forall i: nat :: i < |peers| ==> pay(round, peers[i]).None?
  }

  lemma {:induction false} FirstErrorIs(pay: Payments, round: nat, peers: seq<nat>)
    ensures FirstError(pay, round, peers).None? <==> AllPaid(pay, round, peers)
    ensures forall i: nat :: FirstOfRound(pay, round, peers, i) ==>
            FirstError(pay, round, peers) == pay(round, peers[i])
  {
    if peers != [] {
      var rest := peers[1..];
      FirstErrorIs(pay, round, rest);
      assert forall i: nat :: i < |rest| ==> rest[i] == peers[i + 1];
      if AllPaid(pay, round, rest) && pay(round, peers[0]).None? {
        forall i: nat | i < |peers| ensures pay(round, peers[i]).None? { if i > 0 { assert peers[i] == rest[i - 1]; } }
      }
      if i: nat :| i < |rest| && pay(round, rest[i]).Some? { assert peers[i + 1] == rest[i]; }
      forall i: nat | FirstOfRound(pay, round, peers, i)
        ensures FirstError(pay, round, peers) == pay(round, peers[i])
      {
        if i > 0 {
          assert pay(round, peers[0]).None?;
          assert FirstOfRound(pay, round, rest, i - 1);
        }
      }
    }
  }

  // ----- Parallel -----

  /** The payees of a round: the peers probed in round 0, those at work in every later one. */
  function Payees(swarm: Swarm, peers: nat, round: nat): seq<nat> {
    if round == 0 then Upto(Probers(peers)) else Working(swarm, Probers(peers))
  }

  /** Every payment of the rounds from `from` to `last` went through. */
  ghost predicate NoFailure(pay: Payments, swarm: Swarm, peers: nat, from: nat, last: nat) {
    forall round: nat :: from <= round <= last ==> AllPaid(pay, round, Payees(swarm, peers, round))
  }

  /** In the rounds from `from` to `last`, the first payment to fail is that of the i-th payee
      of this round. */
  ghost predicate FirstFailure(pay: Payments, swarm: Swarm, peers: nat, from: nat, last: nat, round: nat, i: nat) {
    && from <= round <= last
    && FirstOfRound(pay, round, Payees(swarm, peers, round), i)
    && forall r: nat :: from <= r < round ==> AllPaid(pay, r, Payees(swarm, peers, r))
  }

  /** The error reported is that of the first failure; none if there is none. */
  ghost predicate ReportsFirst(e: Option<string>, pay: Payments, swarm: Swarm, peers: nat, from: nat, last: nat) {
    && (e.None? <==> NoFailure(pay, swarm, peers, from, last))
    && (forall round: nat, i: nat :: FirstFailure(pay, swarm, peers, from, last, round, i) ==>
          e == pay(round, Payees(swarm, peers, round)[i]))
  }

  lemma FirstRoundReports(pay: Payments, swarm: Swarm, peers: nat, from: nat, last: nat)
    requires from <= last && FirstError(pay, from, Payees(swarm, peers, from)).Some?
    ensures ReportsFirst(FirstError(pay, from, Payees(swarm, peers, from)), pay, swarm, peers, from, last)
  {
    FirstErrorIs(pay, from, Payees(swarm, peers, from));
  }

  lemma LaterRoundReports(e: Option<string>, pay: Payments, swarm: Swarm, peers: nat, from: nat, last: nat)
    requires from <= last && FirstError(pay, from, Payees(swarm, peers, from)).None?
    requires ReportsFirst(e, pay, swarm, peers, from + 1, last)
    ensures ReportsFirst(e, pay, swarm, peers, from, last)
  {
    FirstErrorIs(pay, from, Payees(swarm, peers, from));
    forall round: nat, i: nat | FirstFailure(pay, swarm, peers, from, last, round, i)
      ensures e == pay(round, Payees(swarm, peers, round)[i])
    {
      assert round != from;
      assert FirstFailure(pay, swarm, peers, from + 1, last, round, i);
    }
  }

  lemma NothingLeftReports(pay: Payments, swarm: Swarm, peers: nat, last: nat)
    ensures ReportsFirst(None, pay, swarm, peers, last + 1, last)
  {
  }

  /** What one more round makes of what was to be reported before. */
  lemma RoundReports(pay: Payments, swarm: Swarm, peers: nat, round: nat, last: nat, later: Option<string>)
    requires round <= last
    requires FirstError(pay, round, Payees(swarm, peers, round)).None? ==>
               ReportsFirst(later, pay, swarm, peers, round + 1, last)
    requires FirstError(pay, round, Payees(swarm, peers, round)).Some? ==>
               later == FirstError(pay, round, Payees(swarm, peers, round))
    ensures ReportsFirst(later, pay, swarm, peers, round, last)
  {
    if FirstError(pay, round, Payees(swarm, peers, round)).Some? {
      FirstRoundReports(pay, swarm, peers, round, last);
    } else {
      LaterRoundReports(later, pay, swarm, peers, round, last);
    }
  }

  /** An error that is already there is kept; without one the next rounds' first is reported. */
  lemma {:induction false} WindowsReport(swarm: Swarm, pay: Payments, peers: nat, window: nat, data: Bytes,
                                         err: Option<string>)
    requires |data| <= MAX_TOTAL
    ensures var run := Windows(swarm, pay, Working(swarm, Probers(peers)), window, data, err);
            && run.windows > window
            && (run.verdict.Submit? ==>
                  if err.Some? then run.verdict.paymentError == err
                  else ReportsFirst(run.verdict.paymentError, pay, swarm, peers, window + 1, run.windows))
    decreases MAX_TOTAL - |data|
  {
    var working := Working(swarm, Probers(peers));
    var here := FirstError(pay, window + 1, working);
    var chunks := Replies(swarm, working, window, 0);
    var run := Windows(swarm, pay, working, window, data, err);
    assert Payees(swarm, peers, window + 1) == working;
    NothingLeftReports(pay, swarm, peers, window + 1);
    if chunks != [] {
      var j := Join(data, chunks);
      if !j.gap && |j.data| <= MAX_TOTAL && !j.eof {
        JoinGrows(data, chunks);
        WindowsReport(swarm, pay, peers, window + 1, j.data, Or(err, here));
      }
    }
    if run.verdict.Submit? && err.None? {
      RoundReports(pay, swarm, peers, window + 1, run.windows, run.verdict.paymentError);
    }
  }

  /** The error the parallel fetch hands on: none exactly when no payment failed, of a probed
      peer in round 0 or of a peer at work in a round that was asked; else that of the first
      round in which one failed and, in it, of the first peer whose payment did. */
  lemma ParallelReportsFirstFailure(swarm: Swarm, pay: Payments, peers: nat)
    ensures var run := Parallel(swarm, pay, peers);
            run.verdict.Submit? ==> ReportsFirst(run.verdict.paymentError, pay, swarm, peers, 0, run.windows)
  {
    var run := Parallel(swarm, pay, peers);
    if run.verdict.Submit? {
      WindowsReport(swarm, pay, peers, 0, [], FirstError(pay, 0, Upto(Probers(peers))));
      RoundReports(pay, swarm, peers, 0, run.windows, run.verdict.paymentError);
    }
  }

  // ----- Sequential -----

  predicate FullChunk(r: Option<Bytes>) { r.Some? && |r.value| >= RANGE_CHUNK }

  /** The k-th request is made: all before it were answered in full. */
  ghost predicate RequestMade(swarm: Swarm, p: nat, k: nat) {
    forall q: nat :: q < k ==> FullChunk(TailReply(swarm, p, q))
  }

  /** The first of the requests made from the k-th on whose payment failed. */
  ghost predicate FirstUnpaid(pay: Payments, swarm: Swarm, p: nat, from: nat, k: nat) {
    && from <= k && RequestMade(swarm, p, k) && pay(k, p).Some?
    && forall q: nat :: from <= q < k ==> pay(q, p).None?
  }

  ghost predicate ReportsFirstOf(e: Option<string>, pay: Payments, swarm: Swarm, p: nat, from: nat) {
    && (e.None? <==> forall k: nat :: from <= k && RequestMade(swarm, p, k) ==> pay(k, p).None?)
    && (forall k: nat :: FirstUnpaid(pay, swarm, p, from, k) ==> e == pay(k, p))
  }

  lemma MadeOnly(swarm: Swarm, p: nat, k: nat)
    requires !FullChunk(TailReply(swarm, p, k))
    ensures forall q: nat :: q > k ==> !RequestMade(swarm, p, q)
  {
  }

  lemma {:induction false} TailReports(swarm: Swarm, pay: Payments, p: nat, k: nat, data: Bytes, err: Option<string>)
    requires RequestMade(swarm, p, k)
    ensures var v := RangeTail(swarm, pay, p, k, data, err);
            v.Submit? ==> if err.Some? then v.paymentError == err else ReportsFirstOf(v.paymentError, pay, swarm, p, k)
    decreases MAX_CHUNKS - k
  {
    if k < MAX_CHUNKS {
      var reply := TailReply(swarm, p, k);
      assert reply == swarm(k, p, k * RANGE_CHUNK, RANGE_CHUNK);
      if FullChunk(reply) {
        TailReports(swarm, pay, p, k + 1, data + reply.value, Or(err, pay(k, p)));
        var v := RangeTail(swarm, pay, p, k, data, err);
        if v.Submit? && err.None? && pay(k, p).None? { OneMore(v.paymentError, pay, swarm, p, k); }
      } else {
        MadeOnly(swarm, p, k);
      }
    }
  }

  lemma OneMore(e: Option<string>, pay: Payments, swarm: Swarm, p: nat, k: nat)
    requires pay(k, p).None? && ReportsFirstOf(e, pay, swarm, p, k + 1)
    ensures ReportsFirstOf(e, pay, swarm, p, k)
  {
    forall q: nat | FirstUnpaid(pay, swarm, p, k, q) ensures e == pay(q, p) {
      assert q != k;
      assert FirstUnpaid(pay, swarm, p, k + 1, q);
    }
  }

  /** The error the one-peer form hands on: that of the first request made of the chosen peer
      whose payment failed; none exactly when none of those payments did. */
  lemma SequentialReportsFirstFailure(swarm: Swarm, pay: Payments, peers: nat)
    ensures var v := Sequential(swarm, pay, peers, 0);
            v.Submit? ==>
              && FirstAnswer(swarm, peers, 0).Some?
              && ReportsFirstOf(v.paymentError, pay, swarm, FirstAnswer(swarm, peers, 0).value, 0)
  {
    var v, first := Sequential(swarm, pay, peers, 0), FirstAnswer(swarm, peers, 0);
    SequentialUsesFirst(swarm, pay, peers, 0);
    if v.Submit? && first.Some? {
      var p := first.value;
      var reply := TailReply(swarm, p, 0);
      assert reply == swarm(0, p, 0, RANGE_CHUNK);
      if FullChunk(reply) {
        TailReports(swarm, pay, p, 1, reply.value, pay(0, p));
        if pay(0, p).None? { OneMore(v.paymentError, pay, swarm, p, 0); }
      } else {
        MadeOnly(swarm, p, 0);
      }
    }
  }

  // ----- Whole blob -----

  /** The whole-blob form hands on the reply and the payment error of the first peer that
      replies, and gives up exactly when nobody does. */
  lemma {:induction false} WholeTakesFirst(replies: nat -> Option<Bytes>, pay: nat -> Option<string>, peers: nat,
                                           from: nat)
    requires from <= peers
    ensures Whole(replies, pay, peers, from).GiveUp? <==> forall p: nat :: from <= p < peers ==> replies(p).None?
    ensures forall p: nat :: from <= p < peers && replies(p).Some? && (forall q: nat :: from <= q < p ==>
            replies(q).None?)
              ==> Whole(replies, pay, peers, from) == Submit(replies(p).value, pay(p))
    decreases peers - from
  {
    if from < peers { WholeTakesFirst(replies, pay, peers, from + 1); }
  }
}
