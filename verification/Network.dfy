/** Many nodes that fetch, store, evict, delete, pin and serve, in any interleaving. */
module Network {
  import opened Bytes
  import opened Words
  import opened Keys
  import opened BlobStores
  import opened Fetch
  import opened FetchTheorems
  import opened RangeServer
  import opened Resolver
  import opened Turns
  import opened ResolveSteps

  type NodeId = nat

  type Net = map<NodeId, Cache>

  /** One access to one node's database. A peer's bytes are arbitrary; a Walrus read is what
      Walrus guarantees. An eviction is not an event: it shows as its deletes, one by one. */
  datatype Event =
    | PeerBytes(node: NodeId, id: Key, data: Bytes)
    | WalrusBytes(node: NodeId, id: Key, data: Bytes)
    | Delete(node: NodeId, id: Key)
    | Pin(node: NodeId, id: Key)
    | Unpin(node: NodeId, id: Key)

  function Local(idOf: ContentId, c: Cache, e: Event): Cache {
    match e
    case PeerBytes(_, id, data) => if Verifies(idOf, id, data) then Apply(c, PutBlob(id, data)) else c
    case WalrusBytes(_, id, data) => Apply(c, PutBlob(id, data))
    case Delete(_, id) => Apply(c, DeleteBlob(id))
    case Pin(_, id) => Apply(c, PinBlob(id))
    case Unpin(_, id) => Apply(c, UnpinBlob(id))
  }

  function Step(idOf: ContentId, net: Net, e: Event): Net {
    if e.node in net then net[e.node := Local(idOf, net[e.node], e)] else net
  }

  function After(idOf: ContentId, net: Net, events: seq<Event>): Net
    decreases |events|
  {
    if events == [] then net else After(idOf, Step(idOf, net, events[0]), events[1..])
  }

  ghost predicate Possible(idOf: ContentId, events: seq<Event>) {
    forall i :: 0 <= i < |events| && events[i].WalrusBytes? ==> Verifies(idOf, events[i].id, events[i].data)
  }

  ghost predicate NetCoherent(idOf: ContentId, net: Net) {
    forall n :: n in net ==> Coherent(idOf, net[n].blobs)
  }

  lemma StepCoherent(idOf: ContentId, net: Net, e: Event)
    requires NetCoherent(idOf, net) && (e.WalrusBytes? ==> Verifies(idOf, e.id, e.data))
    ensures NetCoherent(idOf, Step(idOf, net, e))
  {
    if e.node in net { assert Coherent(idOf, Local(idOf, net[e.node], e).blobs); }
  }

  /** In every interleaving every node's store maps each key to the content it names. */
  lemma {:induction false} AlwaysCoherent(idOf: ContentId, net: Net, events: seq<Event>)
    requires NetCoherent(idOf, net) && Possible(idOf, events)
    ensures NetCoherent(idOf, After(idOf, net, events))
    decreases |events|
  {
    if events != [] {
      StepCoherent(idOf, net, events[0]);
      AlwaysCoherent(idOf, Step(idOf, net, events[0]), events[1..]);
    }
  }

  /** A change of node n as an event; what is put was verified. */
  function AsEvent(n: NodeId, change: Change): Event {
    match change
    case PutBlob(id, data) => WalrusBytes(n, id, data)
    case DeleteBlob(id) => Delete(n, id)
    case PinBlob(id) => Pin(n, id)
    case UnpinBlob(id) => Unpin(n, id)
  }

  function AsEvents(n: NodeId, changes: seq<Change>): seq<Event> {
    seq(|changes|, i requires 0 <= i < |changes| => AsEvent(n, changes[i]))
  }

  lemma {:induction false} ChangesAreEvents(idOf: ContentId, net: Net, n: NodeId, changes: seq<Change>)
    requires n in net && PutsVerify(idOf, changes)
    ensures Possible(idOf, AsEvents(n, changes))
    ensures After(idOf, net, AsEvents(n, changes)) == net[n := Changed(net[n], changes)]
    decreases |changes|
  {
    var events := AsEvents(n, changes);
    if changes == [] {
      assert net[n := net[n]] == net;
    } else {
      assert events[1..] == AsEvents(n, changes[1..]);
      var next := Step(idOf, net, events[0]);
      assert next == net[n := Apply(net[n], changes[0])];
      ChangesAreEvents(idOf, next, n, changes[1..]);
    }
  }

  /** The events of the first k turns of a resolve on node n, and of the others there. */
  function ResolveEvents(n: NodeId, q: Query, c: Cache, env: Schedule, k: nat): seq<Event> {
    AsEvents(n, Interleaved(ResolveAccesses(q), Task(c, LookingUp), env, 0, k))
  }

  /** A resolve, eviction and all, amid whatever others do to its node before each of its
      turns, is a run of events, turn by turn: after every turn the network is where the
      events so far have taken it. So what holds of every run holds of resolving nodes, at
      every point of a resolve. */
  lemma ResolveIsRun(net: Net, n: NodeId, q: Query, env: Schedule) returns (turns: nat)
    requires n in net && WalrusAnswer(q.idOf, q.id, q.walrus) && OthersVerify(q.idOf, env)
    ensures var r := Answer(q, net[n], env);
            AfterTurns(ResolveAccesses(q), Task(net[n], LookingUp), env, 0, turns) == Task(r.cache, Finished(r.result))
    ensures forall k: nat :: k <= turns ==>
              var events := ResolveEvents(n, q, net[n], env, k);
              && Possible(q.idOf, events)
              && After(q.idOf, net, events) ==
                 net[n := AfterTurns(ResolveAccesses(q), Task(net[n], LookingUp), env, 0, k).cache]
  {
    turns := ResolveIsTurns(q, net[n], env);
    forall k: nat | k <= turns
      ensures Possible(q.idOf, ResolveEvents(n, q, net[n], env, k))
      ensures After(q.idOf, net, ResolveEvents(n, q, net[n], env, k)) ==
              net[n := AfterTurns(ResolveAccesses(q), Task(net[n], LookingUp), env, 0, k).cache]
    {
      ChangesAreEvents(q.idOf, net, n, Interleaved(ResolveAccesses(q), Task(net[n], LookingUp), env, 0, k));
    }
  }

  /** A node's answer to a range request, as the requester sees it. */
  function RangeAnswer(c: Cache, id: Key, offset: Word, length: Word): Option<Bytes> {
    AsReply(ServeRange(Lookup(c.blobs, id), offset, length))
  }

  /** Node n, after the first t events, answers with this reply. */
  ghost predicate AnsweredAt(idOf: ContentId, net: Net, events: seq<Event>, t: nat, n: NodeId, id: Key, offset: Word,
                             length: Word, reply: Option<Bytes>) {
    && t <= |events|
    && n in After(idOf, net, events[..t])
    && reply == RangeAnswer(After(idOf, net, events[..t])[n], id, offset, length)
  }

  /** The reply is lost, or some node of the network gave it at some time of the run. */
  ghost predicate GivenSometime(idOf: ContentId, net: Net, events: seq<Event>, id: Key, offset: nat, length: nat,
                                reply: Option<Bytes>) {
    reply.Some? ==>
      && offset < WORD && length < WORD
      && exists t: nat, n :: AnsweredAt(idOf, net, events, t, n, id, offset, length, reply)
  }

  /** An honest answer, at any time of any run, is nothing or the exact slice. */
  lemma AnswerIsSlice(idOf: ContentId, net: Net, events: seq<Event>, id: Key, blob: Bytes, offset: nat, length: nat,
                      reply: Option<Bytes>)
    requires CollisionFree(idOf) && NetCoherent(idOf, net) && Possible(idOf, events) && Verifies(idOf, id, blob)
    requires GivenSometime(idOf, net, events, id, offset, length, reply)
    ensures reply.None? || reply == Slice(blob, offset, length)
  {
    if reply.Some? {
      var t: nat, n :| AnsweredAt(idOf, net, events, t, n, id, offset, length, reply);
      AlwaysCoherent(idOf, net, events[..t]);
      var store := After(idOf, net, events[..t])[n].blobs;
      if id in store {
        assert store[id] == blob;
        ServeRangeIsSlice(blob, offset, length);
      }
    }
  }

  /** And at any time of any run: a node that stores the blob then answers with the slice of it,
      of every request that does not wrap; one that does not, answers with nothing. */
  lemma StoredIsServed(idOf: ContentId, net: Net, events: seq<Event>, n: NodeId, id: Key, blob: Bytes,
                       offset: Word, length: Word)
    requires CollisionFree(idOf) && NetCoherent(idOf, net) && Possible(idOf, events) && Verifies(idOf, id, blob)
    requires n in After(idOf, net, events) && offset + length < WORD
    ensures var c := After(idOf, net, events)[n];
            RangeAnswer(c, id, offset, length) == if id in c.blobs then Slice(blob, offset, length) else None
  {
    var c := After(idOf, net, events)[n];
    AlwaysCoherent(idOf, net, events);
    NothingStoredNothingServed(offset, length);
    if id in c.blobs {
      assert c.blobs[id] == blob;
      ServeRangeIsSlice(blob, offset, length);
    }
  }

  /** End to end: the range fetches against honest nodes that come and go, evict and refetch
      between the requests, hand on only prefixes of the one content the id names; so the
      resolver takes exactly that content from them, or nothing. */
  lemma FetchFromNetwork(idOf: ContentId, net: Net, events: seq<Event>, id: Key, blob: Bytes, swarm: Swarm,
                         pay: Payments, peers: nat)
    requires CollisionFree(idOf) && NetCoherent(idOf, net) && Possible(idOf, events) && Verifies(idOf, id, blob)
    requires forall r: nat, p: nat, o: nat, l: nat :: GivenSometime(idOf, net, events, id, o, l, swarm(r, p, o, l))
    ensures SubmitsPrefix(Parallel(swarm, pay, peers).verdict, blob)
    ensures SubmitsPrefix(Sequential(swarm, pay, peers, 0), blob)
    ensures var attempts := [Parallel(swarm, pay, peers).verdict, Sequential(swarm, pay, peers, 0)];
            var taken := FirstVerified(idOf, id, attempts);
            taken.Submit? ==> taken.data == blob
  {
    forall r: nat, p: nat, o: nat, l: nat
      ensures swarm(r, p, o, l).None? || swarm(r, p, o, l) == Slice(blob, o, l)
    {
      AnswerIsSlice(idOf, net, events, id, blob, o, l, swarm(r, p, o, l));
    }
    HonestFetchesArePrefixes(swarm, pay, blob, peers);
    FirstVerifiedVerifies(idOf, id, [Parallel(swarm, pay, peers).verdict, Sequential(swarm, pay, peers, 0)]);
  }
}
