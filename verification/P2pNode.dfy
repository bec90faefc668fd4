/** The peer-to-peer node: commands and network events over the tables of callers still
    waiting, the queue of announcements and the set of blobs announced twice. */
module P2pNode {
  import opened Bytes

  type Peer = nat
  type Addr = string
  type BlobId = Bytes
  type Caller = int
  type Id = int

  /** The seven tables of reply channels. Three are keyed by Kademlia query ids, the others
      each by the request ids of their own protocol. */
  datatype Table = Finds | Fetches | Ranges | Slivers | Addrs | SuiAddrs | Vaults

  datatype Protocol = Kad | DataProto | RangeProto | SliverProto | AddrProto

  function ProtocolOf(t: Table): Protocol {
    match t
    case Finds => Kad
    case SuiAddrs => Kad
    case Vaults => Kad
    case Fetches => DataProto
    case Ranges => RangeProto
    case Slivers => SliverProto
    case Addrs => AddrProto
  }

  datatype Payload =
    | Peers(peers: seq<Peer>)
    | Data(data: Bytes)
    | NotFound
    | NetworkError
    | Addresses(addrs: seq<Addr>)
    | Value(value: Option<Bytes>)
    | Dialed(ok: bool)

  /** How an answer came about: at once, or through the event with this id. */
  datatype Via = Direct | ById(table: Table, id: Id)

  datatype Answer = Answer(caller: Caller, via: Via, payload: Payload)

  datatype Command =
    | AnnounceBlob(blob: BlobId)
    | FindProviders(blob: BlobId, caller: Caller)
    | FetchBlob(peer: Peer, caller: Caller)
    | FetchRange(peer: Peer, caller: Caller)
    | FetchSliver(peer: Peer, caller: Caller)
    | DialKadPeer(peer: Peer, addrs: Option<seq<Addr>>, caller: Caller)
    | QueryPeerAddress(target: Peer, caller: Caller)
    | GetConnectedPeers(caller: Caller)
    | GetPeerSuiAddress(peer: Peer, caller: Caller)
    | GetPeerVault(peer: Peer, caller: Caller)
    | NoReply

  /** Network events. `Response` and `OutboundFailure` carry the id of one of the four
      request protocols' tables. `IdsDrawn` stands for calls that take ids without keeping a
      caller, such as put_record and bootstrap: ids are fresh, not consecutive. */
  datatype Event =
    | FoundProviders(id: Id, providers: seq<Peer>)
    | FinishedProviders(id: Id)
    | ProvidersError(id: Id)
    | StartProvidingOk(key: Bytes)
    | RecordFound(id: Id, value: Bytes)
    | RecordNone(id: Id)
    | RecordError(id: Id)
    | Response(table: Table, id: Id, data: Option<Bytes>)
    | AddrResponse(id: Id, addrs: seq<Addr>)
    | OutboundFailure(table: Table, id: Id)
    | ConnectionEstablished(peer: Peer, stored: seq<BlobId>)
    | PeerAddresses(peer: Peer, addrs: seq<Addr>)
    | IdsDrawn(protocol: Protocol, count: nat)
    | OtherEvent

  /** What the swarm answers when asked during one step. */
  datatype Swarm = Swarm(connected: seq<Peer>, dialOk: Addr -> bool, bootstrapOk: bool)

  // ----- The seven tables -----

  datatype Tables = Tables(
    finds: map<Id, Caller>,
    fetches: map<Id, Caller>,
    ranges: map<Id, Caller>,
    slivers: map<Id, Caller>,
    addrs: map<Id, Caller>,
    suiAddrs: map<Id, Caller>,
    vaults: map<Id, Caller>)
  {
    function Get(t: Table): map<Id, Caller> {
      match t
      case Finds => finds
      case Fetches => fetches
      case Ranges => ranges
      case Slivers => slivers
      case Addrs => addrs
      case SuiAddrs => suiAddrs
      case Vaults => vaults
    }

    function Set(t: Table, m: map<Id, Caller>): (r: Tables)
      ensures r.Get(t) == m && forall u :: u != t ==> r.Get(u) == Get(u)
    {
      match t
      case Finds => this.(finds := m)
      case Fetches => this.(fetches := m)
      case Ranges => this.(ranges := m)
      case Slivers => this.(slivers := m)
      case Addrs => this.(addrs := m)
      case SuiAddrs => this.(suiAddrs := m)
      case Vaults => this.(vaults := m)
    }
  }

  /** Why `start_providing` was called: for a command, on reconnecting to a bootstrap peer,
      from the queue, or as the one retry after a first success. */
  datatype Origin = Commanded | Reannounced | Dequeued | Retried

  datatype Start = Start(blob: BlobId, origin: Origin)

  /** `nextId` is the swarm's own id counter per protocol; `answers` is what was sent on the
      reply channels and `starts` the calls of start_providing, both in order. */
  datatype State = State(
    tables: Tables,
    nextId: map<Protocol, Id>,
    pendingAnnounces: seq<BlobId>,
    announceRetried: set<BlobId>,
    peerAddresses: map<Peer, seq<Addr>>,
    bootstrapPeers: set<Peer>,
    bootstrapDone: bool,
    answers: seq<Answer>,
    starts: seq<Start>)

  function NextId(s: State, p: Protocol): Id { if p in s.nextId then s.nextId[p] else 0 }

  /** The swarm hands out its next id for one protocol. */
  function Draw(s: State, p: Protocol): State { s.(nextId := s.nextId[p := NextId(s, p) + 1]) }

  function Init(bootstrapPeers: set<Peer>): State {
    State(Tables(map[], map[], map[], map[], map[], map[], map[]), map[], [], {}, map[], bootstrapPeers, false, [], [])
  }

  // ----- Pieces -----

  /** Send a request, and keep the caller under the id it got. */
  function Ask(s: State, t: Table, c: Caller): State {
    var id := NextId(s, ProtocolOf(t));
    Draw(s, ProtocolOf(t)).(tables := s.tables.Set(t, s.tables.Get(t)[id := c]))
  }

  function Reply(s: State, c: Caller, via: Via, p: Payload): State {
    s.(answers := s.answers + [Answer(c, via, p)])
  }

  /** Remove a waiting caller and answer it; nothing if there is none. */
  function Settle(s: State, t: Table, id: Id, p: Payload): State {
    if id in s.tables.Get(t)
    then Reply(s.(tables := s.tables.Set(t, s.tables.Get(t) - {id})), s.tables.Get(t)[id], ById(t, id), p)
    else s
  }

  /** Every call draws a Kademlia query id of its own. */
  function StartProviding(s: State, blob: BlobId, origin: Origin): State {
    Draw(s, Kad).(starts := s.starts + [Start(blob, origin)])
  }

  function StartAll(s: State, blobs: seq<BlobId>, origin: Origin): State
    decreases |blobs|
  {
    if blobs == [] then s else StartAll(StartProviding(s, blobs[0], origin), blobs[1..], origin)
  }

  function DialAddresses(s: State, peer: Peer, addrs: Option<seq<Addr>>): seq<Addr> {
    if addrs.Some? && addrs.value != [] then addrs.value
    else if peer in s.peerAddresses then s.peerAddresses[peer] else []
  }

  // ----- Commands -----

  function Announce(s: State, blob: BlobId, connected: bool): State {
    var t := StartProviding(s, blob, Commanded);
    if connected then t
    else t.(pendingAnnounces := t.pendingAnnounces + [blob])
  }

  function OnCommand(s: State, cmd: Command, sw: Swarm): State {
    match cmd
    case AnnounceBlob(blob) => Announce(s, blob, sw.connected != [])
    case FindProviders(_, c) => Ask(s, Finds, c)
    case FetchBlob(_, c) => Ask(s, Fetches, c)
    case FetchRange(_, c) => Ask(s, Ranges, c)
    case FetchSliver(_, c) => Ask(s, Slivers, c)
    case DialKadPeer(peer, addrs, c) =>
      Reply(s, c, Direct, Dialed(exists a :: a in DialAddresses(s, peer, addrs) && sw.dialOk(a)))
    case QueryPeerAddress(_, c) =>
      if sw.connected != [] then Ask(s, Addrs, c) else Reply(s, c, Direct, Addresses([]))
    case GetConnectedPeers(c) => Reply(s, c, Direct, Peers(sw.connected))
    case GetPeerSuiAddress(_, c) => Ask(s, SuiAddrs, c)
    case GetPeerVault(_, c) => Ask(s, Vaults, c)
    case NoReply => s
  }

  // ----- Events -----

  function RecordValue(value: Bytes): Option<Bytes> { if |value| == 32 then Some(value) else None }

  /** The node asks both record tables for the id. */
  function SettleRecord(s: State, id: Id, value: Option<Bytes>): State {
    Settle(Settle(s, SuiAddrs, id, Value(value)), Vaults, id, Value(value))
  }

  /** The first success for a blob triggers one more call. */
  function OnStartProvidingOk(s: State, key: Bytes): State {
    if |key| == 32 && key !in s.announceRetried
    then StartProviding(s.(announceRetried := s.announceRetried + {key}), key, Retried)
    else s
  }

  function OnConnection(s: State, peer: Peer, stored: seq<BlobId>, sw: Swarm): State {
    var t :=
      if peer !in s.bootstrapPeers then s
      else if !s.bootstrapDone then Draw(s, Kad).(bootstrapDone := sw.bootstrapOk)
      else StartAll(s, stored, Reannounced);
    if t.pendingAnnounces == [] then t else StartAll(t.(pendingAnnounces := []), t.pendingAnnounces, Dequeued)
  }

  function IsRequestTable(t: Table): bool { t.Fetches? || t.Ranges? || t.Slivers? }

  function OnEvent(s: State, e: Event, sw: Swarm): State {
    match e
    case FoundProviders(id, providers) => Settle(s, Finds, id, Peers(providers))
    case FinishedProviders(id) => Settle(s, Finds, id, Peers([]))
    case ProvidersError(id) => Settle(s, Finds, id, Peers([]))
    case StartProvidingOk(key) => OnStartProvidingOk(s, key)
    case RecordFound(id, value) => SettleRecord(s, id, RecordValue(value))
    case RecordNone(id) => SettleRecord(s, id, None)
    case RecordError(id) => SettleRecord(s, id, None)
    case Response(t, id, data) =>
      if !IsRequestTable(t) then s else Settle(s, t, id, if data.Some? then Data(data.value) else NotFound)
    case AddrResponse(id, addrs) => Settle(s, Addrs, id, Addresses(addrs))
    case OutboundFailure(t, id) =>
      if t.Addrs? then Settle(s, Addrs, id, Addresses([]))
      else if IsRequestTable(t) then Settle(s, t, id, NetworkError) else s
    case ConnectionEstablished(peer, stored) => OnConnection(s, peer, stored, sw)
    case PeerAddresses(peer, addrs) => if addrs == [] then s else s.(peerAddresses := s.peerAddresses[peer := addrs])
    case IdsDrawn(p, count) => s.(nextId := s.nextId[p := NextId(s, p) + count])
    case OtherEvent => s
  }

  // ----- Runs -----

  datatype Input = Do(cmd: Command, swarm: Swarm) | See(event: Event, swarm: Swarm)

  function Step(s: State, i: Input): State {
    match i
    case Do(cmd, sw) => OnCommand(s, cmd, sw)
    case See(e, sw) => OnEvent(s, e, sw)
  }

  function Run(s: State, inputs: seq<Input>): State
    decreases |inputs|
  {
    if inputs == [] then s else Run(Step(s, inputs[0]), inputs[1..])
  }

  // ----- The node object -----

  class Node {
    var pendingFinds: map<Id, Caller>
    var pendingFetches: map<Id, Caller>
    var pendingRangeFetches: map<Id, Caller>
    var pendingSliverFetches: map<Id, Caller>
    var pendingAddrQueries: map<Id, Caller>
    var pendingSuiAddrQueries: map<Id, Caller>
    var pendingVaultQueries: map<Id, Caller>
    var nextId: map<Protocol, Id>
    var pendingAnnounces: seq<BlobId>
    var announceRetried: set<BlobId>
    var peerAddresses: map<Peer, seq<Addr>>
    const bootstrapPeers: set<Peer>
    var bootstrapDone: bool
    var answers: seq<Answer>
    var starts: seq<Start>

    function Value(): State
      reads this
    {
      State(Tables(pendingFinds, pendingFetches, pendingRangeFetches, pendingSliverFetches, pendingAddrQueries,
                   pendingSuiAddrQueries, pendingVaultQueries),
            nextId, pendingAnnounces, announceRetried, peerAddresses, bootstrapPeers, bootstrapDone, answers, starts)
    }

    constructor (bootstrapPeers: set<Peer>)
      ensures Value() == Init(bootstrapPeers)
    {
      pendingFinds, pendingFetches, pendingRangeFetches, pendingSliverFetches := map[], map[], map[], map[];
      pendingAddrQueries, pendingSuiAddrQueries, pendingVaultQueries := map[], map[], map[];
      nextId, pendingAnnounces, announceRetried, peerAddresses := map[], [], {}, map[];
      this.bootstrapPeers := bootstrapPeers;
      bootstrapDone := false;
      answers, starts := [], [];
    }

    method DrawId(p: Protocol) returns (id: Id)
      modifies this`nextId
      ensures id == NextId(old(Value()), p) && Value() == Draw(old(Value()), p)
    {
      id := if p in nextId then nextId[p] else 0;
      nextId := nextId[p := id + 1];
    }

    method Provide(blob: BlobId, origin: Origin)
      modifies this`nextId, this`starts
      ensures Value() == StartProviding(old(Value()), blob, origin)
    {
      var _ := DrawId(Kad);
      starts := starts + [Start(blob, origin)];
    }

    method ProvideAll(blobs: seq<BlobId>, origin: Origin)
      modifies this`nextId, this`starts
      ensures Value() == StartAll(old(Value()), blobs, origin)
    {
      for i := 0 to |blobs|
        invariant StartAll(Value(), blobs[i..], origin) == StartAll(old(Value()), blobs, origin)
      {
        assert blobs[i..][1..] == blobs[i + 1..];
        Provide(blobs[i], origin);
      }
    }

    method Send(c: Caller, via: Via, p: Payload)
      modifies this`answers
      ensures Value() == Reply(old(Value()), c, via, p)
    {
      answers := answers + [Answer(c, via, p)];
    }

    method TryDial(addrs: seq<Addr>, dialOk: Addr -> bool) returns (connected: bool)
      ensures connected <==> exists a :: a in addrs && dialOk(a)
    {
      connected := false;
      for i := 0 to |addrs|
        invariant connected <==> exists a :: a in addrs[..i] && dialOk(a)
      {
        assert addrs[..i + 1] == addrs[..i] + [addrs[i]];
        if dialOk(addrs[i]) { connected := true; }
      }
      assert addrs[..|addrs|] == addrs;
    }

    method TableOf(t: Table) returns (m: map<Id, Caller>)
      ensures m == Value().tables.Get(t)
    {
      match t
      case Finds => m := pendingFinds;
      case Fetches => m := pendingFetches;
      case Ranges => m := pendingRangeFetches;
      case Slivers => m := pendingSliverFetches;
      case Addrs => m := pendingAddrQueries;
      case SuiAddrs => m := pendingSuiAddrQueries;
      case Vaults => m := pendingVaultQueries;
    }

    method SetTable(t: Table, m: map<Id, Caller>)
      modifies this`pendingFinds, this`pendingFetches, this`pendingRangeFetches, this`pendingSliverFetches,
               this`pendingAddrQueries, this`pendingSuiAddrQueries, this`pendingVaultQueries
      ensures Value() == old(Value()).(tables := old(Value()).tables.Set(t, m))
    {
      match t
      case Finds => pendingFinds := m;
      case Fetches => pendingFetches := m;
      case Ranges => pendingRangeFetches := m;
      case Slivers => pendingSliverFetches := m;
      case Addrs => pendingAddrQueries := m;
      case SuiAddrs => pendingSuiAddrQueries := m;
      case Vaults => pendingVaultQueries := m;
    }

    /** The request was sent: keep its caller under the id it got. */
    method Await(t: Table, c: Caller)
      modifies this
      ensures Value() == Ask(old(Value()), t, c)
    {
      var id := DrawId(ProtocolOf(t));
      var table := TableOf(t);
      SetTable(t, table[id := c]);
    }

    /** The commands that ask the network, when there is somebody to ask. */
    method HandleRequest(cmd: Command, sw: Swarm)
      requires cmd.FindProviders? || cmd.FetchBlob? || cmd.FetchRange? || cmd.FetchSliver?
               || cmd.QueryPeerAddress? || cmd.GetPeerSuiAddress? || cmd.GetPeerVault?
      modifies this
      ensures Value() == OnCommand(old(Value()), cmd, sw)
    {
      match cmd
      case FindProviders(_, c) => Await(Finds, c);
      case FetchBlob(_, c) => Await(Fetches, c);
      case FetchRange(_, c) => Await(Ranges, c);
      case FetchSliver(_, c) => Await(Slivers, c);
      case QueryPeerAddress(_, c) =>
        if |sw.connected| > 0 { Await(Addrs, c); } else { Send(c, Direct, Addresses([])); }
      case GetPeerSuiAddress(_, c) => Await(SuiAddrs, c);
      case GetPeerVault(_, c) => Await(Vaults, c);
    }

    method HandleDial(peer: Peer, addrs: Option<seq<Addr>>, c: Caller, sw: Swarm)
      modifies this
      ensures Value() == OnCommand(old(Value()), DialKadPeer(peer, addrs, c), sw)
    {
      var known := if peer in peerAddresses then peerAddresses[peer] else [];
      var addresses := if addrs.Some? && addrs.value != [] then addrs.value else known;
      var success := TryDial(addresses, sw.dialOk);
      Send(c, Direct, Dialed(success));
    }

    method HandleCommand(cmd: Command, sw: Swarm)
      modifies this
      ensures Value() == OnCommand(old(Value()), cmd, sw)
    {
      match cmd
      case AnnounceBlob(blob) =>
        Provide(blob, Commanded);
        if |sw.connected| == 0 { pendingAnnounces := pendingAnnounces + [blob]; }
      case DialKadPeer(peer, addrs, c) => HandleDial(peer, addrs, c, sw);
      case GetConnectedPeers(c) => Send(c, Direct, Peers(sw.connected));
      case NoReply =>
      case _ => HandleRequest(cmd, sw);
    }

    /** Takes the caller waiting under an id out of its table. */
    method Remove(t: Table, id: Id) returns (sender: Option<Caller>)
      modifies this`pendingFinds, this`pendingFetches, this`pendingRangeFetches, this`pendingSliverFetches,
               this`pendingAddrQueries, this`pendingSuiAddrQueries, this`pendingVaultQueries
      ensures var table := old(Value()).tables.Get(t);
              && sender == (if id in table then Some(table[id]) else None)
              && Value() == old(Value()).(tables := old(Value()).tables.Set(t, table - {id}))
    {
      var table := TableOf(t);
      sender := if id in table then Some(table[id]) else None;
      SetTable(t, table - {id});
    }

    method Answered(t: Table, id: Id, p: Payload)
      modifies this
      ensures Value() == Settle(old(Value()), t, id, p)
    {
      ghost var s := Value();
      var sender := Remove(t, id);
      if sender.Some? {
        Send(sender.value, ById(t, id), p);
      } else {
        assert s.tables.Get(t) - {id} == s.tables.Get(t);
        assert s.tables.Set(t, s.tables.Get(t)) == s.tables;
      }
    }

    method HandleKadEvent(e: Event, sw: Swarm)
      requires e.FoundProviders? || e.FinishedProviders? || e.ProvidersError? || e.StartProvidingOk?
      modifies this
      ensures Value() == OnEvent(old(Value()), e, sw)
    {
      match e
      case FoundProviders(id, providers) => Answered(Finds, id, Peers(providers));
      case FinishedProviders(id) => Answered(Finds, id, Peers([]));
      case ProvidersError(id) => Answered(Finds, id, Peers([]));
      case StartProvidingOk(key) =>
        if |key| == 32 && key !in announceRetried {
          announceRetried := announceRetried + {key};
          Provide(key, Retried);
        }
    }

    method HandleRecordEvent(e: Event, sw: Swarm)
      requires e.RecordFound? || e.RecordNone? || e.RecordError?
      modifies this
      ensures Value() == OnEvent(old(Value()), e, sw)
    {
      match e
      case RecordFound(id, value) => AnsweredRecord(id, if |value| == 32 then Some(value) else None);
      case RecordNone(id) => AnsweredRecord(id, None);
      case RecordError(id) => AnsweredRecord(id, None);
    }

    method HandleResponse(e: Event, sw: Swarm)
      requires e.Response? || e.AddrResponse? || e.OutboundFailure?
      modifies this
      ensures Value() == OnEvent(old(Value()), e, sw)
    {
      match e
      case Response(t, id, data) =>
        if t.Fetches? || t.Ranges? || t.Slivers? {
          Answered(t, id, if data.Some? then Data(data.value) else NotFound);
        }
      case AddrResponse(id, addrs) => Answered(Addrs, id, Addresses(addrs));
      case OutboundFailure(t, id) =>
        if t.Addrs? {
          Answered(Addrs, id, Addresses([]));
        } else if t.Fetches? || t.Ranges? || t.Slivers? {
          Answered(t, id, NetworkError);
        }
    }

    method HandleEvent(e: Event, sw: Swarm)
      modifies this
      ensures Value() == OnEvent(old(Value()), e, sw)
    {
      if e.FoundProviders? || e.FinishedProviders? || e.ProvidersError? || e.StartProvidingOk? {
        HandleKadEvent(e, sw);
      } else if e.RecordFound? || e.RecordNone? || e.RecordError? {
        HandleRecordEvent(e, sw);
      } else if e.Response? || e.AddrResponse? || e.OutboundFailure? {
        HandleResponse(e, sw);
      } else if e.ConnectionEstablished? {
        Connected(e.peer, e.stored, sw);
      } else if e.PeerAddresses? && e.addrs != [] {
        peerAddresses := peerAddresses[e.peer := e.addrs];
      } else if e.IdsDrawn? {
        nextId := nextId[e.protocol := (if e.protocol in nextId then nextId[e.protocol] else 0) + e.count];
      }
    }

    method AnsweredRecord(id: Id, value: Option<Bytes>)
      modifies this
      ensures Value() == SettleRecord(old(Value()), id, value)
    {
      Answered(SuiAddrs, id, Payload.Value(value));
      Answered(Vaults, id, Payload.Value(value));
    }

    method Connected(peer: Peer, stored: seq<BlobId>, sw: Swarm)
      modifies this
      ensures Value() == OnConnection(old(Value()), peer, stored, sw)
    {
      if peer in bootstrapPeers {
        if !bootstrapDone {
          var _ := DrawId(Kad);
          if sw.bootstrapOk { bootstrapDone := true; }
        } else {
          ProvideAll(stored, Reannounced);
        }
      }
      if pendingAnnounces != [] {
        var announces := pendingAnnounces;
        pendingAnnounces := [];
        ProvideAll(announces, Dequeued);
      }
    }
  }
}
