/** What the node keeps over every run, whatever events come, in whatever order, however
    often: no caller is lost or answered twice, and announcements are made exactly as often
    as they should be. */
module NodeTheorems {
  import opened Bytes
  import opened P2pNode

  // ----- The books: who waits, who was answered -----

  predicate Waits(s: State, t: Table, id: Id, c: Caller) {
    id in s.tables.Get(t) && s.tables.Get(t)[id] == c
  }

  ghost predicate Waiting(s: State, c: Caller) { exists t, id :: Waits(s, t, id, c) }

  predicate AnsweredAs(s: State, k: int, c: Caller) { 0 <= k < |s.answers| && s.answers[k].caller == c }

  ghost predicate Answered(s: State, c: Caller) { exists k :: AnsweredAs(s, k, c) }

  ghost predicate Known(s: State, c: Caller) { Waiting(s, c) || Answered(s, c) }

  /** Ids in use were drawn; tables of one protocol share no id; a caller waits in one place,
      or has one answer, never both. */
  ghost predicate Books(s: State) {
    && (forall t, id, c :: Waits(s, t, id, c) ==> id < NextId(s, ProtocolOf(t)))
    && (forall t, u, id, c, d :: Waits(s, t, id, c) && Waits(s, u, id, d) && ProtocolOf(t) == ProtocolOf(u) ==> t == u)
    && (forall t, u, id, jd, c :: Waits(s, t, id, c) && Waits(s, u, jd, c) ==> t == u && id == jd)
    && (forall t, id, k, c :: Waits(s, t, id, c) ==> !AnsweredAs(s, k, c))
    && (forall k, l, c :: AnsweredAs(s, k, c) && AnsweredAs(s, l, c) ==> k == l)
  }

  /** Steps that neither add nor answer a caller. */
  predicate SameBooks(s: State, t: State) {
    t.tables == s.tables && t.answers == s.answers
  }

  lemma SameBooksKeep(s: State, t: State)
    requires Books(s) && SameBooks(s, t) && forall p :: NextId(s, p) <= NextId(t, p)
    ensures Books(t) && forall c :: Known(t, c) <==> Known(s, c)
  {
    assert forall u, id, c :: Waits(t, u, id, c) <==> Waits(s, u, id, c);
    assert forall k, c :: AnsweredAs(t, k, c) <==> AnsweredAs(s, k, c);
  }

  lemma AskKeeps(s: State, t: Table, c: Caller)
    requires Books(s) && !Known(s, c)
    ensures Books(Ask(s, t, c)) && Waits(Ask(s, t, c), t, NextId(s, ProtocolOf(t)), c)
    ensures forall d :: Known(Ask(s, t, c), d) <==> Known(s, d) || d == c
  {
    var a, id := Ask(s, t, c), NextId(s, ProtocolOf(t));
    forall u, j, d
      ensures Waits(a, u, j, d) <==> Waits(s, u, j, d) || (u == t && j == id && d == c)
    {
      if u == t && j == id && j in s.tables.Get(t) { assert Waits(s, t, j, s.tables.Get(t)[j]); }
    }
    assert forall k, d :: AnsweredAs(a, k, d) <==> AnsweredAs(s, k, d);
    assert Waits(a, t, id, c);
    assert forall p :: NextId(s, p) <= NextId(a, p);
    forall d ensures Known(a, d) <==> Known(s, d) || d == c {
      if Waiting(s, d) { var u, j :| Waits(s, u, j, d); assert Waits(a, u, j, d); }
    }
  }

  lemma ReplyKeeps(s: State, c: Caller, p: Payload)
    requires Books(s) && !Known(s, c)
    ensures Books(Reply(s, c, Direct, p))
    ensures forall d :: Known(Reply(s, c, Direct, p), d) <==> Known(s, d) || d == c
  {
    var a := Reply(s, c, Direct, p);
    assert forall t, id, d :: Waits(a, t, id, d) <==> Waits(s, t, id, d);
    assert forall k, d :: AnsweredAs(a, k, d) <==> AnsweredAs(s, k, d) || (k == |s.answers| && d == c);
    assert AnsweredAs(a, |s.answers|, c);
    forall d ensures Known(a, d) <==> Known(s, d) || d == c {
      if Answered(s, d) { var k :| AnsweredAs(s, k, d); assert AnsweredAs(a, k, d); }
    }
  }

  lemma SettleKeeps(s: State, t: Table, id: Id, p: Payload)
    requires Books(s)
    ensures Books(Settle(s, t, id, p))
    ensures forall d :: Known(Settle(s, t, id, p), d) <==> Known(s, d)
  {
    if id in s.tables.Get(t) {
      var a, c := Settle(s, t, id, p), s.tables.Get(t)[id];
      assert Waits(s, t, id, c);
      assert forall u, j, d :: Waits(a, u, j, d) <==> Waits(s, u, j, d) && !(u == t && j == id);
      assert forall k, d :: AnsweredAs(a, k, d) <==> AnsweredAs(s, k, d) || (k == |s.answers| && d == c);
      assert AnsweredAs(a, |s.answers|, c);
      assert forall q :: NextId(a, q) == NextId(s, q);
      forall d ensures Known(a, d) <==> Known(s, d) {
        if Waiting(s, d) && d != c { var u, j :| Waits(s, u, j, d); assert Waits(a, u, j, d); }
        if Answered(s, d) { var k :| AnsweredAs(s, k, d); assert AnsweredAs(a, k, d); }
      }
    }
  }

  lemma {:induction false} StartAllBooks(s: State, blobs: seq<BlobId>, origin: Origin)
    ensures SameBooks(s, StartAll(s, blobs, origin))
    ensures forall p :: NextId(s, p) <= NextId(StartAll(s, blobs, origin), p)
    decreases |blobs|
  {
    if blobs != [] { StartAllBooks(StartProviding(s, blobs[0], origin), blobs[1..], origin); }
  }

  lemma ConnectionBooks(s: State, peer: Peer, stored: seq<BlobId>, sw: Swarm)
    ensures SameBooks(s, OnConnection(s, peer, stored, sw))
    ensures forall p :: NextId(s, p) <= NextId(OnConnection(s, peer, stored, sw), p)
  {
    StartAllBooks(s, stored, Reannounced);
    var t :=
      if peer !in s.bootstrapPeers then s
      else if !s.bootstrapDone then Draw(s, Kad).(bootstrapDone := sw.bootstrapOk)
      else StartAll(s, stored, Reannounced);
    StartAllBooks(t.(pendingAnnounces := []), t.pendingAnnounces, Dequeued);
  }

  function CallerOf(i: Input): Option<Caller> {
    if i.See? || i.cmd.NoReply? || i.cmd.AnnounceBlob? then None else Some(i.cmd.caller)
  }

  predicate OnlySettles(e: Event) {
    !e.ConnectionEstablished? && !e.StartProvidingOk? && !e.PeerAddresses? && !e.IdsDrawn?
  }

  /** Events that settle nobody. */
  lemma QuietKeepsBooks(s: State, e: Event, sw: Swarm)
    requires Books(s) && !OnlySettles(e)
    ensures Books(OnEvent(s, e, sw)) && forall c :: Known(OnEvent(s, e, sw), c) <==> Known(s, c)
  {
    if e.ConnectionEstablished? { ConnectionBooks(s, e.peer, e.stored, sw); }
    SameBooksKeep(s, OnEvent(s, e, sw));
  }

  lemma EventKeepsBooks(s: State, e: Event, sw: Swarm)
    requires Books(s)
    ensures Books(OnEvent(s, e, sw)) && forall c :: Known(OnEvent(s, e, sw), c) <==> Known(s, c)
  {
    match e
    case FoundProviders(id, providers) => SettleKeeps(s, Finds, id, Peers(providers));
    case FinishedProviders(id) => SettleKeeps(s, Finds, id, Peers([]));
    case ProvidersError(id) => SettleKeeps(s, Finds, id, Peers([]));
    case RecordFound(id, value) => RecordKeepsBooks(s, id, RecordValue(value));
    case RecordNone(id) => RecordKeepsBooks(s, id, None);
    case RecordError(id) => RecordKeepsBooks(s, id, None);
    case Response(t, id, data) => SettleKeeps(s, t, id, if data.Some? then Data(data.value) else NotFound);
    case AddrResponse(id, addrs) => SettleKeeps(s, Addrs, id, Addresses(addrs));
    case OutboundFailure(t, id) => SettleKeeps(s, t, id, if t.Addrs? then Addresses([]) else NetworkError);
    case OtherEvent =>
    case _ => QuietKeepsBooks(s, e, sw);
  }

  lemma RecordKeepsBooks(s: State, id: Id, value: Option<Bytes>)
    requires Books(s)
    ensures Books(SettleRecord(s, id, value)) && forall c :: Known(SettleRecord(s, id, value), c) <==> Known(s, c)
  {
    SettleKeeps(s, SuiAddrs, id, Value(value));
    SettleKeeps(Settle(s, SuiAddrs, id, Value(value)), Vaults, id, Value(value));
  }

  lemma CommandKeepsBooks(s: State, cmd: Command, sw: Swarm)
    requires Books(s)
    requires var c := CallerOf(Do(cmd, sw)); c.Some? ==> !Known(s, c.value)
    ensures Books(OnCommand(s, cmd, sw))
    ensures forall c :: Known(OnCommand(s, cmd, sw), c) <==> Known(s, c) || CallerOf(Do(cmd, sw)) == Some(c)
  {
    match cmd
    case AnnounceBlob(blob) => SameBooksKeep(s, OnCommand(s, cmd, sw));
    case FindProviders(_, c) => AskKeeps(s, Finds, c);
    case FetchBlob(_, c) => AskKeeps(s, Fetches, c);
    case FetchRange(_, c) => AskKeeps(s, Ranges, c);
    case FetchSliver(_, c) => AskKeeps(s, Slivers, c);
    case DialKadPeer(peer, addrs, c) =>
      ReplyKeeps(s, c, Dialed(exists a :: a in DialAddresses(s, peer, addrs) && sw.dialOk(a)));
    case QueryPeerAddress(_, c) =>
      if sw.connected != [] { AskKeeps(s, Addrs, c); } else { ReplyKeeps(s, c, Addresses([])); }
    case GetConnectedPeers(c) => ReplyKeeps(s, c, Peers(sw.connected));
    case GetPeerSuiAddress(_, c) => AskKeeps(s, SuiAddrs, c);
    case GetPeerVault(_, c) => AskKeeps(s, Vaults, c);
    case NoReply =>
  }

  ghost predicate Issued(inputs: seq<Input>, c: Caller) {
    exists i :: 0 <= i < |inputs| && CallerOf(inputs[i]) == Some(c)
  }

  /** Every reply channel is given to one command. */
  ghost predicate OneUse(inputs: seq<Input>) {
    forall i, j :: 0 <= i < j < |inputs| && CallerOf(inputs[i]).Some? ==> CallerOf(inputs[i]) != CallerOf(inputs[j])
  }

  lemma {:induction false} RunKeepsBooks(s: State, inputs: seq<Input>)
    requires Books(s) && OneUse(inputs) && forall c :: Issued(inputs, c) ==> !Known(s, c)
    ensures Books(Run(s, inputs))
    ensures forall c :: Known(Run(s, inputs), c) <==> Known(s, c) || Issued(inputs, c)
    decreases |inputs|
  {
    if inputs != [] {
      var first, rest := inputs[0], inputs[1..];
      var t := Step(s, first);
      if CallerOf(first).Some? { assert Issued(inputs, CallerOf(first).value); }
      match first {
        case Do(cmd, sw) => CommandKeepsBooks(s, cmd, sw);
        case See(e, sw) => EventKeepsBooks(s, e, sw);
      }
      forall c ensures Issued(inputs, c) <==> CallerOf(first) == Some(c) || Issued(rest, c) {
        if Issued(rest, c) {
          var i :| 0 <= i < |rest| && CallerOf(rest[i]) == Some(c);
          assert inputs[i + 1] == rest[i];
        }
        if Issued(inputs, c) && CallerOf(first) != Some(c) {
          var i :| 0 <= i < |inputs| && CallerOf(inputs[i]) == Some(c);
          assert rest[i - 1] == inputs[i];
        }
      }
      forall c | Issued(rest, c) ensures CallerOf(first) != Some(c) {
        var i :| 0 <= i < |rest| && CallerOf(rest[i]) == Some(c);
        assert inputs[i + 1] == rest[i];
      }
      RunKeepsBooks(t, rest);
    }
  }

  /** In every run, a caller that issued a command with a reply channel either still waits, in
      exactly one table, or has been answered, exactly once; and nobody else is answered. */
  lemma EveryCallerAccountedFor(bootstrapPeers: set<Peer>, inputs: seq<Input>, c: Caller)
    requires OneUse(inputs)
    ensures var s := Run(Init(bootstrapPeers), inputs);
            && (Issued(inputs, c) <==> Waiting(s, c) || Answered(s, c))
            && !(Waiting(s, c) && Answered(s, c))
            && (forall t, u, id, jd :: Waits(s, t, id, c) && Waits(s, u, jd, c) ==> t == u && id == jd)
            && (forall k, l :: AnsweredAs(s, k, c) && AnsweredAs(s, l, c) ==> k == l)
  {
    BooksOfRun(bootstrapPeers, inputs);
  }

  // ----- The answer belongs to the request -----

  /** The event that ends the wait under (t, id). */
  predicate Settles(i: Input, t: Table, id: Id) {
    i.See? &&
    match i.event
    case FoundProviders(j, _) => t.Finds? && j == id
    case FinishedProviders(j) => t.Finds? && j == id
    case ProvidersError(j) => t.Finds? && j == id
    case RecordFound(j, _) => (t.SuiAddrs? || t.Vaults?) && j == id
    case RecordNone(j) => (t.SuiAddrs? || t.Vaults?) && j == id
    case RecordError(j) => (t.SuiAddrs? || t.Vaults?) && j == id
    case Response(u, j, _) => t == u && IsRequestTable(t) && j == id
    case AddrResponse(j, _) => t.Addrs? && j == id
    case OutboundFailure(u, j) => t == u && (IsRequestTable(t) || t.Addrs?) && j == id
    case _ => false
  }

  /** What that event says. */
  function Said(i: Input, t: Table, id: Id): Payload
    requires Settles(i, t, id)
  {
    match i.event
    case FoundProviders(_, providers) => Peers(providers)
    case FinishedProviders(_) => Peers([])
    case ProvidersError(_) => Peers([])
    case RecordFound(_, value) => Value(if |value| == 32 then Some(value) else None)
    case RecordNone(_) => Value(None)
    case RecordError(_) => Value(None)
    case Response(_, _, data) => if data.Some? then Data(data.value) else NotFound
    case AddrResponse(_, addrs) => Addresses(addrs)
    case OutboundFailure(_, _) => if t.Addrs? then Addresses([]) else NetworkError
  }

  /** Settling a caller touches its table and the answers, nothing else. */
  lemma SettleFrame(s: State, t: Table, id: Id, p: Payload)
    ensures var a := Settle(s, t, id, p);
            && a == s.(tables := a.tables, answers := a.answers)
            && s.answers <= a.answers
  {
  }

  lemma RecordFrame(s: State, id: Id, value: Option<Bytes>)
    ensures var a := SettleRecord(s, id, value);
            && a == s.(tables := a.tables, answers := a.answers)
            && s.answers <= a.answers
  {
    SettleFrame(s, SuiAddrs, id, Value(value));
    SettleFrame(Settle(s, SuiAddrs, id, Value(value)), Vaults, id, Value(value));
  }

  lemma EventFrame(s: State, e: Event, sw: Swarm)
    requires OnlySettles(e)
    ensures var a := OnEvent(s, e, sw);
            && a == s.(tables := a.tables, answers := a.answers)
            && s.answers <= a.answers
  {
    match e
    case FoundProviders(id, providers) => SettleFrame(s, Finds, id, Peers(providers));
    case FinishedProviders(id) => SettleFrame(s, Finds, id, Peers([]));
    case ProvidersError(id) => SettleFrame(s, Finds, id, Peers([]));
    case RecordFound(id, value) => RecordFrame(s, id, RecordValue(value));
    case RecordNone(id) => RecordFrame(s, id, None);
    case RecordError(id) => RecordFrame(s, id, None);
    case Response(t, id, data) => SettleFrame(s, t, id, if data.Some? then Data(data.value) else NotFound);
    case AddrResponse(id, addrs) => SettleFrame(s, Addrs, id, Addresses(addrs));
    case OutboundFailure(t, id) => SettleFrame(s, t, id, if t.Addrs? then Addresses([]) else NetworkError);
    case OtherEvent =>
  }

  lemma CommandFrame(s: State, cmd: Command, sw: Swarm)
    ensures var a := OnCommand(s, cmd, sw);
            && s.answers <= a.answers
            && a.announceRetried == s.announceRetried
            && (!cmd.AnnounceBlob? ==> a.starts == s.starts && a.pendingAnnounces == s.pendingAnnounces)
  {
  }

  /** Answers are only ever added at the end. */
  lemma StepAppendsAnswers(s: State, i: Input)
    ensures s.answers <= Step(s, i).answers
  {
    match i
    case Do(cmd, sw) => CommandFrame(s, cmd, sw);
    case See(e, sw) =>
      if OnlySettles(e) { EventFrame(s, e, sw); }
      if e.ConnectionEstablished? { ConnectionBooks(s, e.peer, e.stored, sw); }
  }

  lemma {:induction false} RunAppendsAnswers(s: State, inputs: seq<Input>)
    ensures s.answers <= Run(s, inputs).answers
    decreases |inputs|
  {
    if inputs != [] {
      StepAppendsAnswers(s, inputs[0]);
      RunAppendsAnswers(Step(s, inputs[0]), inputs[1..]);
    }
  }

  /** Sui address and vault queries never wait under the same id. */
  lemma RecordTablesDisjoint(s: State, id: Id)
    requires Books(s)
    ensures id !in s.tables.Get(SuiAddrs) || id !in s.tables.Get(Vaults)
  {
    var sui, vaults := s.tables.Get(SuiAddrs), s.tables.Get(Vaults);
    assert id in sui ==> Waits(s, SuiAddrs, id, sui[id]);
    assert id in vaults ==> Waits(s, Vaults, id, vaults[id]);
  }

  lemma SettlingStep(s: State, i: Input, t: Table, id: Id, c: Caller)
    requires Books(s) && Waits(s, t, id, c) && Settles(i, t, id)
    ensures Answer(c, ById(t, id), Said(i, t, id)) in Step(s, i).answers
  {
    RecordTablesDisjoint(s, id);
  }

  lemma OtherSettle(s: State, u: Table, j: Id, p: Payload, t: Table, id: Id, c: Caller)
    requires Waits(s, t, id, c) && !(u == t && j == id)
    ensures Waits(Settle(s, u, j, p), t, id, c)
  {
    if j in s.tables.Get(u) {
      assert t != u ==> s.tables.Set(u, s.tables.Get(u) - {j}).Get(t) == s.tables.Get(t);
    }
  }

  lemma OtherEvent(s: State, e: Event, sw: Swarm, t: Table, id: Id, c: Caller)
    requires Waits(s, t, id, c) && !Settles(See(e, sw), t, id)
    ensures Waits(OnEvent(s, e, sw), t, id, c)
  {
    match e
    case FoundProviders(j, providers) => OtherSettle(s, Finds, j, Peers(providers), t, id, c);
    case FinishedProviders(j) => OtherSettle(s, Finds, j, Peers([]), t, id, c);
    case ProvidersError(j) => OtherSettle(s, Finds, j, Peers([]), t, id, c);
    case RecordFound(j, value) => OtherRecord(s, j, RecordValue(value), t, id, c);
    case RecordNone(j) => OtherRecord(s, j, None, t, id, c);
    case RecordError(j) => OtherRecord(s, j, None, t, id, c);
    case Response(u, j, data) =>
      if IsRequestTable(u) { OtherSettle(s, u, j, if data.Some? then Data(data.value) else NotFound, t, id, c); }
    case AddrResponse(j, addrs) => OtherSettle(s, Addrs, j, Addresses(addrs), t, id, c);
    case OutboundFailure(u, j) =>
      if u.Addrs? || IsRequestTable(u) {
        OtherSettle(s, u, j, if u.Addrs? then Addresses([]) else NetworkError, t, id, c);
      }
    case ConnectionEstablished(peer, stored) => ConnectionBooks(s, peer, stored, sw);
    case _ =>
  }

  lemma OtherRecord(s: State, j: Id, value: Option<Bytes>, t: Table, id: Id, c: Caller)
    requires Waits(s, t, id, c) && !((t.SuiAddrs? || t.Vaults?) && j == id)
    ensures Waits(SettleRecord(s, j, value), t, id, c)
  {
    OtherSettle(s, SuiAddrs, j, Value(value), t, id, c);
    OtherSettle(Settle(s, SuiAddrs, j, Value(value)), Vaults, j, Value(value), t, id, c);
  }

  lemma OtherAsk(s: State, u: Table, d: Caller, t: Table, id: Id, c: Caller)
    requires Books(s) && Waits(s, t, id, c)
    ensures Waits(Ask(s, u, d), t, id, c)
  {
  }

  lemma OtherCommand(s: State, cmd: Command, sw: Swarm, t: Table, id: Id, c: Caller)
    requires Books(s) && Waits(s, t, id, c)
    ensures Waits(OnCommand(s, cmd, sw), t, id, c)
  {
    match cmd
    case FindProviders(_, d) => OtherAsk(s, Finds, d, t, id, c);
    case FetchBlob(_, d) => OtherAsk(s, Fetches, d, t, id, c);
    case FetchRange(_, d) => OtherAsk(s, Ranges, d, t, id, c);
    case FetchSliver(_, d) => OtherAsk(s, Slivers, d, t, id, c);
    case QueryPeerAddress(_, d) => if sw.connected != [] { OtherAsk(s, Addrs, d, t, id, c); }
    case GetPeerSuiAddress(_, d) => OtherAsk(s, SuiAddrs, d, t, id, c);
    case GetPeerVault(_, d) => OtherAsk(s, Vaults, d, t, id, c);
    case _ =>
  }

  /** Nothing but its own event ends a wait. */
  lemma OtherStep(s: State, i: Input, t: Table, id: Id, c: Caller)
    requires Books(s) && Waits(s, t, id, c) && !Settles(i, t, id)
    ensures Waits(Step(s, i), t, id, c)
  {
    match i
    case Do(cmd, sw) => OtherCommand(s, cmd, sw, t, id, c);
    case See(e, sw) => OtherEvent(s, e, sw, t, id, c);
  }

  /** inputs[k] is the first event for (t, id). */
  ghost predicate FirstFor(inputs: seq<Input>, k: int, t: Table, id: Id) {
    0 <= k < |inputs| && Settles(inputs[k], t, id) && forall j :: 0 <= j < k ==> !Settles(inputs[j], t, id)
  }

  lemma FirstInRest(inputs: seq<Input>, k: int, t: Table, id: Id)
    requires FirstFor(inputs, k, t, id) && !Settles(inputs[0], t, id)
    ensures k > 0 && FirstFor(inputs[1..], k - 1, t, id) && inputs[1..][k - 1] == inputs[k]
  {
    assert forall j :: 0 <= j < k - 1 ==> inputs[1..][j] == inputs[j + 1];
  }

  /** With no event for (t, id) among the inputs the caller waits in the end; with one, it
      was answered with what the first of them says. */
  ghost predicate Served(end: State, inputs: seq<Input>, t: Table, id: Id, c: Caller) {
    && ((forall k :: 0 <= k < |inputs| ==> !Settles(inputs[k], t, id)) ==> Waits(end, t, id, c))
    && (forall k :: FirstFor(inputs, k, t, id) ==> Answer(c, ById(t, id), Said(inputs[k], t, id)) in end.answers)
  }

  /** No caller of these inputs has been heard of before. */
  ghost predicate NewCallers(s: State, inputs: seq<Input>) {
    OneUse(inputs) && forall c :: Issued(inputs, c) ==> !Known(s, c)
  }

  /** A waiting caller keeps waiting until the first event for its own id, and is then
      answered, with what that event says. */
  lemma {:induction false} AnsweredByItsOwnRequest(s: State, inputs: seq<Input>, t: Table, id: Id, c: Caller)
    requires Books(s) && Waits(s, t, id, c) && NewCallers(s, inputs)
    ensures Served(Run(s, inputs), inputs, t, id, c)
    decreases |inputs|
  {
    if inputs != [] {
      var first, rest := inputs[0], inputs[1..];
      if Settles(first, t, id) {
        SettlingStep(s, first, t, id, c);
        RunAppendsAnswers(Step(s, first), rest);
      } else {
        OtherStep(s, first, t, id, c);
        RestStillFresh(s, inputs);
        AnsweredByItsOwnRequest(Step(s, first), rest, t, id, c);
        forall k | FirstFor(inputs, k, t, id)
          ensures Answer(c, ById(t, id), Said(inputs[k], t, id)) in Run(s, inputs).answers
        {
          FirstInRest(inputs, k, t, id);
        }
      }
    }
  }

  lemma FirstOnly(inputs: seq<Input>)
    requires inputs != []
    ensures OneUse([inputs[0]]) && forall c :: Issued([inputs[0]], c) ==> Issued(inputs, c)
  {
    forall c | Issued([inputs[0]], c) ensures Issued(inputs, c) {
      assert CallerOf(inputs[0]) == Some(c);
    }
  }

  lemma RestStillFresh(s: State, inputs: seq<Input>)
    requires inputs != [] && Books(s) && NewCallers(s, inputs)
    ensures Books(Step(s, inputs[0])) && NewCallers(Step(s, inputs[0]), inputs[1..])
  {
    var first, rest := inputs[0], inputs[1..];
    FirstOnly(inputs);
    RunKeepsBooks(s, [first]);
    assert [first][1..] == [] && Run(s, [first]) == Step(s, first);
    forall d | Issued(rest, d) ensures !Known(Step(s, first), d) {
      var i :| 0 <= i < |rest| && CallerOf(rest[i]) == Some(d);
      assert inputs[i + 1] == rest[i];
      assert !Issued([first], d);
    }
  }

  /** The table a command waits in; None when it is answered at once or has no reply. */
  function Awaits(cmd: Command, sw: Swarm): Option<Table> {
    match cmd
    case FindProviders(_, _) => Some(Finds)
    case FetchBlob(_, _) => Some(Fetches)
    case FetchRange(_, _) => Some(Ranges)
    case FetchSliver(_, _) => Some(Slivers)
    case QueryPeerAddress(_, _) => if sw.connected != [] then Some(Addrs) else None
    case GetPeerSuiAddress(_, _) => Some(SuiAddrs)
    case GetPeerVault(_, _) => Some(Vaults)
    case _ => None
  }

  lemma {:induction false} RunAppend(s: State, a: seq<Input>, b: seq<Input>)
    ensures Run(s, a + b) == Run(Run(s, a), b)
    decreases |a|
  {
    if a == [] {
      assert a + b == b;
    } else {
      RunAppend(Step(s, a[0]), a[1..], b);
      assert (a + b)[1..] == a[1..] + b;
    }
  }

  lemma SplitIssues(a: seq<Input>, b: seq<Input>)
    requires OneUse(a + b)
    ensures OneUse(a) && OneUse(b) && forall c :: Issued(b, c) ==> !Issued(a, c)
  {
    assert forall i :: 0 <= i < |a| ==> (a + b)[i] == a[i];
    assert forall i :: 0 <= i < |b| ==> (a + b)[|a| + i] == b[i];
    forall i, j | 0 <= i < j < |b| && CallerOf(b[i]).Some? ensures CallerOf(b[i]) != CallerOf(b[j]) {
      assert (a + b)[|a| + i] == b[i] && (a + b)[|a| + j] == b[j];
    }
    forall c | Issued(b, c) ensures !Issued(a, c) {
      var j :| 0 <= j < |b| && CallerOf(b[j]) == Some(c);
      assert (a + b)[|a| + j] == b[j];
    }
  }

  lemma BooksOfRun(bootstrapPeers: set<Peer>, inputs: seq<Input>)
    requires OneUse(inputs)
    ensures Books(Run(Init(bootstrapPeers), inputs))
    ensures forall c :: Known(Run(Init(bootstrapPeers), inputs), c) <==> Issued(inputs, c)
  {
    assert forall t, id, d :: !Waits(Init(bootstrapPeers), t, id, d);
    RunKeepsBooks(Init(bootstrapPeers), inputs);
  }

  /** A command that asks waits in its own table, under the id drawn for it. */
  lemma IssuedWaits(bootstrapPeers: set<Peer>, before: seq<Input>, cmd: Command, sw: Swarm)
    requires OneUse(before + [Do(cmd, sw)]) && Awaits(cmd, sw).Some?
    ensures var t := Awaits(cmd, sw).value;
            Waits(Run(Init(bootstrapPeers), before + [Do(cmd, sw)]), t,
                  NextId(Run(Init(bootstrapPeers), before), ProtocolOf(t)), CallerOf(Do(cmd, sw)).value)
  {
    var here, s := [Do(cmd, sw)], Run(Init(bootstrapPeers), before);
    RunAppend(Init(bootstrapPeers), before, here);
    assert here[1..] == [] && Run(s, here) == OnCommand(s, cmd, sw);
    assert OnCommand(s, cmd, sw) == Ask(s, Awaits(cmd, sw).value, cmd.caller);
  }

  /** Anywhere in any run: a command that asks the network is answered with what the first
      event for the id it was given then says, and waits until that event comes. Events that
      named the id before the command was issued do not matter. */
  lemma CommandGetsItsOwnAnswer(bootstrapPeers: set<Peer>, before: seq<Input>, cmd: Command, sw: Swarm,
                                after: seq<Input>)
    requires OneUse(before + [Do(cmd, sw)] + after) && Awaits(cmd, sw).Some?
    ensures var t, c := Awaits(cmd, sw).value, CallerOf(Do(cmd, sw)).value;
            var id := NextId(Run(Init(bootstrapPeers), before), ProtocolOf(t));
            var end := Run(Init(bootstrapPeers), before + [Do(cmd, sw)] + after);
            Served(end, after, t, id, c)
  {
    var init, here := Init(bootstrapPeers), [Do(cmd, sw)];
    var t, c := Awaits(cmd, sw).value, CallerOf(here[0]).value;
    SplitIssues(before + here, after);
    RunAppend(init, before + here, after);
    NewAfter(bootstrapPeers, before + here, after);
    IssuedWaits(bootstrapPeers, before, cmd, sw);
    AnsweredByItsOwnRequest(Run(init, before + here), after, t, NextId(Run(init, before), ProtocolOf(t)), c);
  }

  lemma NewAfter(bootstrapPeers: set<Peer>, a: seq<Input>, b: seq<Input>)
    requires OneUse(a + b)
    ensures var s := Run(Init(bootstrapPeers), a); Books(s) && NewCallers(s, b)
  {
    SplitIssues(a, b);
    BooksOfRun(bootstrapPeers, a);
  }

  /** The two record tables never share an id, so one GetRecord event answers one caller at
      the most. */
  lemma RecordAnswersAtMostOne(bootstrapPeers: set<Peer>, inputs: seq<Input>, id: Id, value: Option<Bytes>)
    requires OneUse(inputs)
    ensures var s := Run(Init(bootstrapPeers), inputs);
            |SettleRecord(s, id, value).answers| <= |s.answers| + 1
  {
    BooksOfRun(bootstrapPeers, inputs);
    RecordTablesDisjoint(Run(Init(bootstrapPeers), inputs), id);
  }

  // ----- Announcements -----

  /** The blobs of the calls made for one reason, in order. */
  function Of(starts: seq<Start>, origin: Origin): seq<BlobId> {
    if starts == [] then [] else
    (if starts[0].origin == origin then [starts[0].blob] else []) + Of(starts[1..], origin)
  }

  lemma {:induction false} OfAppend(a: seq<Start>, b: seq<Start>, origin: Origin)
    ensures Of(a + b, origin) == Of(a, origin) + Of(b, origin)
  {
    if a == [] {
      assert a + b == b && [] + Of(b, origin) == Of(b, origin);
    } else {
      OfAppend(a[1..], b, origin);
      assert (a + b)[0] == a[0] && (a + b)[1..] == a[1..] + b;
      var first := if a[0].origin == origin then [a[0].blob] else [];
      Reassociate(first, Of(a[1..], origin), Of(b, origin));
    }
  }

  lemma OfOne(s: State, blob: BlobId, why: Origin, origin: Origin)
    ensures Of(StartProviding(s, blob, why).starts, origin) ==
            Of(s.starts, origin) + (if why == origin then [blob] else [])
  {
    OfAppend(s.starts, [Start(blob, why)], origin);
    assert [Start(blob, why)][1..] == [];
  }

  lemma {:induction false} OfAll(s: State, blobs: seq<BlobId>, why: Origin, origin: Origin)
    ensures var t := StartAll(s, blobs, why);
            && t == s.(nextId := t.nextId, starts := t.starts)
            && Of(t.starts, origin) == Of(s.starts, origin) + (if why == origin then blobs else [])
    decreases |blobs|
  {
    if blobs != [] {
      var t := StartProviding(s, blobs[0], why);
      OfOne(s, blobs[0], why, origin);
      OfAll(t, blobs[1..], why, origin);
      assert why == origin ==> [blobs[0]] + blobs[1..] == blobs;
      assert Of(s.starts, origin) + [blobs[0]] + blobs[1..] == Of(s.starts, origin) + ([blobs[0]] + blobs[1..]);
    }
  }

  /** Blobs announced while nobody was connected, in order. */
  function AnnouncedAlone(inputs: seq<Input>): seq<BlobId> {
    if inputs == [] then [] else
    AloneIn(inputs[0]) + AnnouncedAlone(inputs[1..])
  }

  function AloneIn(i: Input): seq<BlobId> {
    if i.Do? && i.cmd.AnnounceBlob? && i.swarm.connected == [] then [i.cmd.blob] else []
  }

  /** The flush on a new connection: everything queued, in order, and nothing stays. */
  lemma FlushOnConnection(s: State, peer: Peer, stored: seq<BlobId>, sw: Swarm)
    ensures var t := OnConnection(s, peer, stored, sw);
            && t.pendingAnnounces == []
            && t.announceRetried == s.announceRetried
            && Of(t.starts, Dequeued) == Of(s.starts, Dequeued) + s.pendingAnnounces
            && Of(t.starts, Retried) == Of(s.starts, Retried)
  {
    OfAll(s, stored, Reannounced, Dequeued);
    OfAll(s, stored, Reannounced, Retried);
    var m :=
      if peer !in s.bootstrapPeers then s
      else if !s.bootstrapDone then Draw(s, Kad).(bootstrapDone := sw.bootstrapOk)
      else StartAll(s, stored, Reannounced);
    OfAll(m.(pendingAnnounces := []), m.pendingAnnounces, Dequeued, Dequeued);
    OfAll(m.(pendingAnnounces := []), m.pendingAnnounces, Dequeued, Retried);
  }

  lemma StepQueue(s: State, i: Input)
    ensures var t := Step(s, i);
            Of(t.starts, Dequeued) + t.pendingAnnounces == Of(s.starts, Dequeued) + s.pendingAnnounces + AloneIn(i)
  {
    match i
    case Do(cmd, sw) => CommandQueue(s, cmd, sw);
    case See(e, sw) => EventQueue(s, e, sw);
  }

  lemma CommandQueue(s: State, cmd: Command, sw: Swarm)
    ensures var t := OnCommand(s, cmd, sw);
            Of(t.starts, Dequeued) + t.pendingAnnounces ==
            Of(s.starts, Dequeued) + s.pendingAnnounces + AloneIn(Do(cmd, sw))
  {
    if cmd.AnnounceBlob? {
      OfOne(s, cmd.blob, Commanded, Dequeued);
      var queue := Of(s.starts, Dequeued);
      assert queue + (s.pendingAnnounces + [cmd.blob]) == queue + s.pendingAnnounces + [cmd.blob];
    } else {
      CommandFrame(s, cmd, sw);
    }
  }

  lemma EventQueue(s: State, e: Event, sw: Swarm)
    ensures var t := OnEvent(s, e, sw);
            Of(t.starts, Dequeued) + t.pendingAnnounces == Of(s.starts, Dequeued) + s.pendingAnnounces
  {
    if OnlySettles(e) {
      EventFrame(s, e, sw);
    } else if e.ConnectionEstablished? {
      FlushOnConnection(s, e.peer, e.stored, sw);
    } else if e.StartProvidingOk? {
      OfOne(s.(announceRetried := s.announceRetried + {e.key}), e.key, Retried, Dequeued);
    }
  }

  lemma Reassociate(a: seq<BlobId>, b: seq<BlobId>, c: seq<BlobId>)
    ensures a + b + c == a + (b + c) && a + [] == a
  {
  }

  /** Every blob announced while nobody was connected is still queued or was started from
      the queue, exactly once and in order, at every point of every run. */
  lemma {:induction false} QueueKeepsOrder(s: State, inputs: seq<Input>)
    ensures var t := Run(s, inputs);
            Of(t.starts, Dequeued) + t.pendingAnnounces ==
            Of(s.starts, Dequeued) + s.pendingAnnounces + AnnouncedAlone(inputs)
    decreases |inputs|
  {
    if inputs != [] {
      StepQueue(s, inputs[0]);
      QueueKeepsOrder(Step(s, inputs[0]), inputs[1..]);
      Reassociate(Of(s.starts, Dequeued) + s.pendingAnnounces, AloneIn(inputs[0]), AnnouncedAlone(inputs[1..]));
    } else {
      Reassociate(Of(s.starts, Dequeued) + s.pendingAnnounces, [], []);
    }
  }

  lemma StepStaysQueued(s: State, i: Input)
    requires !NewConnection(i)
    ensures var t := Step(s, i);
            && t.pendingAnnounces == s.pendingAnnounces + AloneIn(i)
            && Of(t.starts, Dequeued) == Of(s.starts, Dequeued)
  {
    match i
    case Do(cmd, sw) =>
      if cmd.AnnounceBlob? { OfOne(s, cmd.blob, Commanded, Dequeued); } else { CommandFrame(s, cmd, sw); }
    case See(e, sw) =>
      if OnlySettles(e) { EventFrame(s, e, sw); }
      if e.StartProvidingOk? { OfOne(s.(announceRetried := s.announceRetried + {e.key}), e.key, Retried, Dequeued); }
  }

  predicate NewConnection(i: Input) { i.See? && i.event.ConnectionEstablished? }

  /** Nothing but a new connection takes from the queue: until one comes, every blob announced
      alone stays queued, in order, and none is started from the queue. */
  lemma {:induction false} StaysQueuedUntilConnection(s: State, inputs: seq<Input>)
    requires forall i :: 0 <= i < |inputs| ==> !NewConnection(inputs[i])
    ensures var t := Run(s, inputs);
            && t.pendingAnnounces == s.pendingAnnounces + AnnouncedAlone(inputs)
            && Of(t.starts, Dequeued) == Of(s.starts, Dequeued)
    decreases |inputs|
  {
    if inputs == [] {
      Reassociate(s.pendingAnnounces, [], []);
    } else {
      StepStaysQueued(s, inputs[0]);
      StaysQueuedUntilConnection(Step(s, inputs[0]), inputs[1..]);
      Reassociate(s.pendingAnnounces, AloneIn(inputs[0]), AnnouncedAlone(inputs[1..]));
    }
  }

  /** And the next connection then starts exactly those, in order, and empties the queue. */
  lemma NextConnectionFlushes(s: State, inputs: seq<Input>, peer: Peer, stored: seq<BlobId>, sw: Swarm)
    requires forall i :: 0 <= i < |inputs| ==> !NewConnection(inputs[i])
    ensures var t := Run(s, inputs + [See(ConnectionEstablished(peer, stored), sw)]);
            && t.pendingAnnounces == []
            && Of(t.starts, Dequeued) == Of(s.starts, Dequeued) + (s.pendingAnnounces + AnnouncedAlone(inputs))
  {
    var last := [See(ConnectionEstablished(peer, stored), sw)];
    RunAppend(s, inputs, last);
    assert last[1..] == [] && Run(Run(s, inputs), last) == OnConnection(Run(s, inputs), peer, stored, sw);
    StaysQueuedUntilConnection(s, inputs);
    FlushOnConnection(Run(s, inputs), peer, stored, sw);
  }

  /** Every blob announced, in order. */
  function Announced(inputs: seq<Input>): seq<BlobId> {
    if inputs == [] then [] else AnnouncedBy(inputs[0]) + Announced(inputs[1..])
  }

  function AnnouncedBy(i: Input): seq<BlobId> {
    if i.Do? && i.cmd.AnnounceBlob? then [i.cmd.blob] else []
  }

  lemma StepCommanded(s: State, i: Input)
    ensures Of(Step(s, i).starts, Commanded) == Of(s.starts, Commanded) + AnnouncedBy(i)
  {
    var before := Of(s.starts, Commanded);
    assert before + [] == before;
    match i
    case Do(cmd, sw) =>
      if cmd.AnnounceBlob? { OfOne(s, cmd.blob, Commanded, Commanded); } else { CommandFrame(s, cmd, sw); }
    case See(e, sw) =>
      if OnlySettles(e) { EventFrame(s, e, sw); }
      if e.ConnectionEstablished? { ConnectionCommandsNothing(s, e.peer, e.stored, sw); }
      if e.StartProvidingOk? { OfOne(s.(announceRetried := s.announceRetried + {e.key}), e.key, Retried, Commanded); }
  }

  lemma ConnectionCommandsNothing(s: State, peer: Peer, stored: seq<BlobId>, sw: Swarm)
    ensures Of(OnConnection(s, peer, stored, sw).starts, Commanded) == Of(s.starts, Commanded)
  {
    OfAll(s, stored, Reannounced, Commanded);
    var m :=
      if peer !in s.bootstrapPeers then s
      else if !s.bootstrapDone then Draw(s, Kad).(bootstrapDone := sw.bootstrapOk)
      else StartAll(s, stored, Reannounced);
    OfAll(m.(pendingAnnounces := []), m.pendingAnnounces, Dequeued, Commanded);
  }

  /** Every announced blob is started at once, connected or not, once a command and in order. */
  lemma {:induction false} AnnouncedAtOnce(s: State, inputs: seq<Input>)
    ensures Of(Run(s, inputs).starts, Commanded) == Of(s.starts, Commanded) + Announced(inputs)
    decreases |inputs|
  {
    var before := Of(s.starts, Commanded);
    if inputs == [] {
      Reassociate(before, [], []);
    } else {
      StepCommanded(s, inputs[0]);
      AnnouncedAtOnce(Step(s, inputs[0]), inputs[1..]);
      Reassociate(before, AnnouncedBy(inputs[0]), Announced(inputs[1..]));
    }
  }

  predicate Success(i: Input) { i.See? && i.event.StartProvidingOk? && |i.event.key| == 32 }

  /** The 32-byte keys whose success was seen. */
  function Succeeded(inputs: seq<Input>): set<BlobId> {
    set i | 0 <= i < |inputs| && Success(inputs[i]) :: inputs[i].event.key
  }

  ghost predicate Once(blobs: seq<BlobId>) {
    forall i, j :: 0 <= i < j < |blobs| ==> blobs[i] != blobs[j]
  }

  ghost predicate RetriesMatch(s: State) {
    Once(Of(s.starts, Retried)) && s.announceRetried == (set b | b in Of(s.starts, Retried))
  }

  lemma StartingRetries(s: State, key: Bytes)
    requires RetriesMatch(s) && |key| == 32
    ensures var t := OnStartProvidingOk(s, key); RetriesMatch(t) && t.announceRetried == s.announceRetried + {key}
  {
    if key !in s.announceRetried {
      var before := Of(s.starts, Retried);
      OfOne(s.(announceRetried := s.announceRetried + {key}), key, Retried, Retried);
      assert Of(OnStartProvidingOk(s, key).starts, Retried) == before + [key];
      assert forall b :: b in before + [key] <==> b in before || b == key;
      assert key !in before;
    }
  }

  /** Every other step leaves the retries alone. */
  lemma OtherRetries(s: State, i: Input)
    requires !Success(i)
    ensures var t := Step(s, i);
            t.announceRetried == s.announceRetried && Of(t.starts, Retried) == Of(s.starts, Retried)
  {
    match i
    case Do(cmd, sw) =>
      CommandFrame(s, cmd, sw);
      if cmd.AnnounceBlob? { OfOne(s, cmd.blob, Commanded, Retried); }
    case See(e, sw) =>
      if OnlySettles(e) { EventFrame(s, e, sw); }
      if e.ConnectionEstablished? { FlushOnConnection(s, e.peer, e.stored, sw); }
  }

  lemma StepRetries(s: State, i: Input)
    requires RetriesMatch(s)
    ensures RetriesMatch(Step(s, i)) && Step(s, i).announceRetried == s.announceRetried + Succeeded([i])
  {
    assert [i][0] == i;
    if Success(i) {
      StartingRetries(s, i.event.key);
      assert Succeeded([i]) == {i.event.key};
    } else {
      OtherRetries(s, i);
      assert Succeeded([i]) == {};
    }
  }

  lemma {:induction false} RunRetries(s: State, inputs: seq<Input>)
    requires RetriesMatch(s)
    ensures RetriesMatch(Run(s, inputs)) && Run(s, inputs).announceRetried == s.announceRetried + Succeeded(inputs)
    decreases |inputs|
  {
    if inputs != [] {
      StepRetries(s, inputs[0]);
      RunRetries(Step(s, inputs[0]), inputs[1..]);
      assert Succeeded(inputs) == Succeeded([inputs[0]]) + Succeeded(inputs[1..]) by {
        assert inputs == [inputs[0]] + inputs[1..];
        SucceededAppend([inputs[0]], inputs[1..]);
      }
    }
  }

  lemma SucceededAppend(a: seq<Input>, b: seq<Input>)
    ensures Succeeded(a + b) == Succeeded(a) + Succeeded(b)
  {
    forall k | k in Succeeded(b) ensures k in Succeeded(a + b) {
      var i :| 0 <= i < |b| && Success(b[i]) && b[i].event.key == k;
      assert (a + b)[|a| + i] == b[i];
    }
    forall k | k in Succeeded(a) ensures k in Succeeded(a + b) {
      var i :| 0 <= i < |a| && Success(a[i]) && a[i].event.key == k;
      assert (a + b)[i] == a[i];
    }
  }

  lemma {:induction false} OnceCounts(blobs: seq<BlobId>)
    requires Once(blobs)
    ensures |blobs| == |set b | b in blobs|
  {
    if blobs != [] {
      OnceCounts(blobs[1..]);
      assert (set b | b in blobs) == {blobs[0]} + (set b | b in blobs[1..]);
    }
  }

  /** The cascade of successes and retries ends in every run: the node has retried each blob
      that ever succeeded exactly once, however many successes are reported. */
  lemma RetriesAreFinite(bootstrapPeers: set<Peer>, inputs: seq<Input>)
    ensures var s := Run(Init(bootstrapPeers), inputs);
            && Once(Of(s.starts, Retried))
            && |Of(s.starts, Retried)| == |s.announceRetried|
            && s.announceRetried == Succeeded(inputs)
  {
    var init := Init(bootstrapPeers);
    RunRetries(init, inputs);
    OnceCounts(Of(Run(init, inputs).starts, Retried));
  }
}
