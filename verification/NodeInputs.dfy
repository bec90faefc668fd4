/** What a node answers at once, and what it announces again, told from its inputs alone. */
module NodeInputs {
  import opened Bytes
  import opened P2pNode
  import opened NodeTheorems

  function ButLast(inputs: seq<Input>): seq<Input>
    requires inputs != []
  {
    inputs[..|inputs| - 1]
  }

  function Last(inputs: seq<Input>): Input
    requires inputs != []
  {
    inputs[|inputs| - 1]
  }

  lemma RunLast(s: State, inputs: seq<Input>)
    requires inputs != []
    ensures Run(s, inputs) == Step(Run(s, ButLast(inputs)), Last(inputs))
  {
    var last := [Last(inputs)];
    assert inputs == ButLast(inputs) + last && last[1..] == [];
    RunAppend(s, ButLast(inputs), last);
    assert Run(Run(s, ButLast(inputs)), last) == Step(Run(s, ButLast(inputs)), Last(inputs));
  }

  // ----- Addresses -----

  predicate TellsAddresses(i: Input, peer: Peer) {
    i.See? && i.event.PeerAddresses? && i.event.peer == peer && i.event.addrs != []
  }

  /** The addresses last learnt of a peer: those of the last event that named any. */
  function LastAddresses(inputs: seq<Input>, peer: Peer): seq<Addr> {
    if inputs == [] then []
    else if TellsAddresses(Last(inputs), peer) then Last(inputs).event.addrs
    else LastAddresses(ButLast(inputs), peer)
  }

  function KnownAddresses(s: State, peer: Peer): seq<Addr> {
    if peer in s.peerAddresses then s.peerAddresses[peer] else []
  }

  lemma {:induction false} StartAllFrame(s: State, blobs: seq<BlobId>, origin: Origin)
    ensures var t := StartAll(s, blobs, origin);
            t == s.(nextId := t.nextId, starts := t.starts)
    decreases |blobs|
  {
    if blobs != [] { StartAllFrame(StartProviding(s, blobs[0], origin), blobs[1..], origin); }
  }

  lemma ConnectionFrame(s: State, peer: Peer, stored: seq<BlobId>, sw: Swarm)
    ensures var t := OnConnection(s, peer, stored, sw);
            && t.peerAddresses == s.peerAddresses
            && t.bootstrapPeers == s.bootstrapPeers
            && t.bootstrapDone == (s.bootstrapDone || (peer in s.bootstrapPeers && sw.bootstrapOk))
  {
    StartAllFrame(s, stored, Reannounced);
    var m :=
      if peer !in s.bootstrapPeers then s
      else if !s.bootstrapDone then Draw(s, Kad).(bootstrapDone := sw.bootstrapOk)
      else StartAll(s, stored, Reannounced);
    StartAllFrame(m.(pendingAnnounces := []), m.pendingAnnounces, Dequeued);
  }

  /** Bootstrapping, its peers and the addresses learnt are left alone by every other step. */
  lemma CommandLeaves(s: State, cmd: Command, sw: Swarm)
    ensures var t := OnCommand(s, cmd, sw);
            t.peerAddresses == s.peerAddresses && t.bootstrapPeers == s.bootstrapPeers
                && t.bootstrapDone == s.bootstrapDone
  {
  }

  lemma StepAddresses(s: State, i: Input, peer: Peer)
    ensures KnownAddresses(Step(s, i), peer) ==
            if TellsAddresses(i, peer) then i.event.addrs else KnownAddresses(s, peer)
  {
    match i
    case Do(cmd, sw) => CommandLeaves(s, cmd, sw);
    case See(e, sw) =>
      if OnlySettles(e) { EventFrame(s, e, sw); }
      if e.ConnectionEstablished? { ConnectionFrame(s, e.peer, e.stored, sw); }
  }

  lemma {:induction false} AddressesAreLast(bootstrapPeers: set<Peer>, inputs: seq<Input>, peer: Peer)
    ensures KnownAddresses(Run(Init(bootstrapPeers), inputs), peer) == LastAddresses(inputs, peer)
    decreases |inputs|
  {
    if inputs != [] {
      AddressesAreLast(bootstrapPeers, ButLast(inputs), peer);
      RunLast(Init(bootstrapPeers), inputs);
      StepAddresses(Run(Init(bootstrapPeers), ButLast(inputs)), Last(inputs), peer);
    }
  }

  // ----- Answers at once -----

  /** Where a dial command tries: the addresses it gives, else those last learnt. */
  function DialList(before: seq<Input>, peer: Peer, addrs: Option<seq<Addr>>): seq<Addr> {
    if addrs.Some? && addrs.value != [] then addrs.value else LastAddresses(before, peer)
  }

  predicate Dials(addrs: seq<Addr>, sw: Swarm) { exists a :: a in addrs && sw.dialOk(a) }

  /** What a command that is answered at once is told, after these inputs: the peers connected
      now; no addresses, if nobody is connected; whether some address could be dialled. */
  function ToldAtOnce(before: seq<Input>, cmd: Command, sw: Swarm): Option<Payload> {
    match cmd
    case GetConnectedPeers(_) => Some(Peers(sw.connected))
    case QueryPeerAddress(_, _) => if |sw.connected| == 0 then Some(Addresses([])) else None
    case DialKadPeer(peer, addrs, _) => Some(Dialed(Dials(DialList(before, peer, addrs), sw)))
    case _ => None
  }

  lemma AnswersAtOnce(bootstrapPeers: set<Peer>, before: seq<Input>, cmd: Command, sw: Swarm)
    requires ToldAtOnce(before, cmd, sw).Some?
    ensures var s := Run(Init(bootstrapPeers), before);
            OnCommand(s, cmd, sw).answers == s.answers + [Answer(cmd.caller, Direct, ToldAtOnce(before, cmd, sw).value)]
  {
    if cmd.DialKadPeer? {
      AddressesAreLast(bootstrapPeers, before, cmd.peer);
      var s := Run(Init(bootstrapPeers), before);
      assert DialAddresses(s, cmd.peer, cmd.addrs) == DialList(before, cmd.peer, cmd.addrs);
    }
  }

  /** Anywhere in any run: whoever asks what is answered at once gets that answer, at once, and
      never another. */
  lemma ToldAtOnceAndForAll(bootstrapPeers: set<Peer>, before: seq<Input>, cmd: Command, sw: Swarm, after: seq<Input>)
    requires OneUse(before + [Do(cmd, sw)] + after) && ToldAtOnce(before, cmd, sw).Some?
    ensures var here := Run(Init(bootstrapPeers), before + [Do(cmd, sw)]);
            var end := Run(Init(bootstrapPeers), before + [Do(cmd, sw)] + after);
            var c := CallerOf(Do(cmd, sw)).value;
            && Answered(here, c) && Answered(end, c)
            && forall k :: AnsweredAs(end, k, c) ==>
                 end.answers[k] == Answer(c, Direct, ToldAtOnce(before, cmd, sw).value)
  {
    var init, here := Init(bootstrapPeers), [Do(cmd, sw)];
    var s, c := Run(init, before), CallerOf(Do(cmd, sw)).value;
    RunAppend(init, before, here);
    assert here[1..] == [] && Run(s, here) == OnCommand(s, cmd, sw);
    AnswersAtOnce(bootstrapPeers, before, cmd, sw);
    assert AnsweredAs(Run(s, here), |s.answers|, c);
    RunAppend(init, before + here, after);
    RunAppendsAnswers(Run(s, here), after);
    var end := Run(init, before + here + after);
    assert AnsweredAs(end, |s.answers|, c);
    EveryCallerAccountedFor(bootstrapPeers, before + here + after, c);
    assert end.answers[|s.answers|] == Run(s, here).answers[|s.answers|];
  }

  // ----- Announcing again -----

  predicate BootstrapConnection(i: Input, bootstrapPeers: set<Peer>) {
    i.See? && i.event.ConnectionEstablished? && i.event.peer in bootstrapPeers
  }

  /** A connection to a bootstrap peer came whose bootstrap would succeed. */
  ghost predicate Bootstrapped(inputs: seq<Input>, bootstrapPeers: set<Peer>) {
    exists i :: 0 <= i < |inputs| && BootstrapConnection(inputs[i], bootstrapPeers) && inputs[i].swarm.bootstrapOk
  }

  /** What was stored at each connection to a bootstrap peer after the bootstrap succeeded. */
  ghost function StoredOnReconnect(inputs: seq<Input>, bootstrapPeers: set<Peer>): seq<BlobId> {
    if inputs == [] then []
    else
      StoredOnReconnect(ButLast(inputs), bootstrapPeers) +
      if BootstrapConnection(Last(inputs), bootstrapPeers) && Bootstrapped(ButLast(inputs), bootstrapPeers)
      then Last(inputs).event.stored else []
  }

  lemma BootstrappedLast(inputs: seq<Input>, bootstrapPeers: set<Peer>)
    requires inputs != []
    ensures Bootstrapped(inputs, bootstrapPeers) <==>
            || Bootstrapped(ButLast(inputs), bootstrapPeers)
            || (BootstrapConnection(Last(inputs), bootstrapPeers) && Last(inputs).swarm.bootstrapOk)
  {
    var before := ButLast(inputs);
    assert forall i :: 0 <= i < |before| ==> before[i] == inputs[i];
    if i :| 0 <= i < |before| && BootstrapConnection(before[i], bootstrapPeers) && before[i].swarm.bootstrapOk {
      assert BootstrapConnection(inputs[i], bootstrapPeers);
    }
    assert inputs[|inputs| - 1] == Last(inputs);
  }

  lemma ConnectionReannounces(s: State, peer: Peer, stored: seq<BlobId>, sw: Swarm)
    ensures Of(OnConnection(s, peer, stored, sw).starts, Reannounced) ==
            Of(s.starts, Reannounced) + if peer in s.bootstrapPeers && s.bootstrapDone then stored else []
  {
    OfAll(s, stored, Reannounced, Reannounced);
    var m :=
      if peer !in s.bootstrapPeers then s
      else if !s.bootstrapDone then Draw(s, Kad).(bootstrapDone := sw.bootstrapOk)
      else StartAll(s, stored, Reannounced);
    OfAll(m.(pendingAnnounces := []), m.pendingAnnounces, Dequeued, Reannounced);
    var before := Of(s.starts, Reannounced);
    assert before + [] == before;
  }

  /** No other step announces again, or changes whether the node has bootstrapped. */
  lemma OtherStepReannounces(s: State, i: Input)
    requires !NewConnection(i)
    ensures var t := Step(s, i);
            && t.bootstrapPeers == s.bootstrapPeers && t.bootstrapDone == s.bootstrapDone
            && Of(t.starts, Reannounced) == Of(s.starts, Reannounced)
  {
    match i
    case Do(cmd, sw) =>
      CommandLeaves(s, cmd, sw);
      if cmd.AnnounceBlob? { OfOne(s, cmd.blob, Commanded, Reannounced); } else { CommandFrame(s, cmd, sw); }
    case See(e, sw) =>
      if OnlySettles(e) { EventFrame(s, e, sw); }
      if e.StartProvidingOk? { OfOne(s.(announceRetried := s.announceRetried + {e.key}), e.key, Retried, Reannounced); }
  }

  /** Over every run: what is announced again is exactly what was stored at each connection to
      a bootstrap peer that came after the bootstrap had succeeded, all of it and in order. */
  lemma {:induction false} ReannouncedExactly(bootstrapPeers: set<Peer>, inputs: seq<Input>)
    ensures var s := Run(Init(bootstrapPeers), inputs);
            && Of(s.starts, Reannounced) == StoredOnReconnect(inputs, bootstrapPeers)
            && s.bootstrapPeers == bootstrapPeers
            && (s.bootstrapDone <==> Bootstrapped(inputs, bootstrapPeers))
    decreases |inputs|
  {
    if inputs != [] {
      var s, last := Run(Init(bootstrapPeers), ButLast(inputs)), Last(inputs);
      ReannouncedExactly(bootstrapPeers, ButLast(inputs));
      RunLast(Init(bootstrapPeers), inputs);
      BootstrappedLast(inputs, bootstrapPeers);
      if NewConnection(last) {
        ConnectionReannounces(s, last.event.peer, last.event.stored, last.swarm);
        ConnectionFrame(s, last.event.peer, last.event.stored, last.swarm);
      } else {
        OtherStepReannounces(s, last);
        var before := StoredOnReconnect(ButLast(inputs), bootstrapPeers);
        assert before + [] == before;
      }
    }
  }
}
