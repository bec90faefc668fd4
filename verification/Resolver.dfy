/** Resolving a blob: local store, then peers, then Walrus. The content id is a partial
    function of the bytes; a Walrus read yields nothing or bytes with the id asked for. Others
    may change the cache before each turn a resolve takes at it. */
module Resolver {
  import opened Bytes
  import opened Words
  import opened Keys
  import opened BlobStores
  import opened EvictionRuns
  import opened Fetch

  type ContentId = Bytes -> Option<Key>

  /** Different contents have different ids. */
  ghost predicate CollisionFree(idOf: ContentId) {
    forall a, b :: idOf(a).Some? && idOf(a) == idOf(b) ==> a == b
  }

  predicate Verifies(idOf: ContentId, id: Key, data: Bytes) { idOf(data) == Some(id) }

  /** What strict Walrus reads guarantee. */
  predicate WalrusAnswer(idOf: ContentId, id: Key, read: Option<Bytes>) {
    read.Some? ==> Verifies(idOf, id, read.value)
  }

  datatype Layer = LocalCache | L1Peer | L3Walrus

  /** EvictionFailed is the eviction's error about a blob without a size. */
  datatype Result =
    | Resolved(data: Bytes, layer: Layer, cached: bool, paymentError: Option<string>)
    | Unavailable
    | EvictionFailed

  /** Every entry is the content its key names. */
  ghost predicate Coherent(idOf: ContentId, s: Store) {
    forall k :: k in s ==> Verifies(idOf, k, s[k])
  }

  /** The first fetched data that verifies, if any. */
  function FirstVerified(idOf: ContentId, id: Key, attempts: seq<Verdict>): Verdict {
    if attempts == [] then GiveUp
    else if attempts[0].Submit? && Verifies(idOf, id, attempts[0].data) then attempts[0]
    else FirstVerified(idOf, id, attempts[1..])
  }

  /** The turns of a resolve: the lookup, the put, and from then on those of the eviction. */
  const LOOKUP: nat := 0
  const PUT: nat := 1
  const EVICTION: nat := 2

  function PutAndEvict(c: Cache, budget: nat, id: Key, data: Bytes, env: Schedule): Evicted {
    EvictAmong(Apply(Changed(c, env(PUT)), PutBlob(id, data)), budget, env, EVICTION)
  }

  datatype Resolution = Resolution(result: Result, cache: Cache)

  function ResolveAmong(idOf: ContentId, c: Cache, budget: nat, id: Key, attempts: seq<Verdict>,
                        walrus: Option<Bytes>, env: Schedule): Resolution {
    var now := Changed(c, env(LOOKUP));
    if id in now.blobs then Resolution(Resolved(now.blobs[id], LocalCache, true, None), now)
    else
      var fetched := FirstVerified(idOf, id, attempts);
      if fetched.Submit? then
        Resolution(Resolved(fetched.data, L1Peer, true, fetched.paymentError),
                   PutAndEvict(now, budget, id, fetched.data, env).cache)
      else if walrus.None? then Resolution(Unavailable, now)
      else
        var evicted := PutAndEvict(now, budget, id, walrus.value, env);
        Resolution(if evicted.ok then Resolved(walrus.value, L3Walrus, true, None) else EvictionFailed, evicted.cache)
  }

  // ----- In place -----

  class ResolverNode {
    const store: BlobStore
    const eviction: EvictionManager

    constructor (store: BlobStore, eviction: EvictionManager)
      ensures this.store == store && this.eviction == eviction
    {
      this.store := store;
      this.eviction := eviction;
    }

    predicate Wired() { eviction.store == store }

    /** Verify, put, evict, and no matter how the eviction ends; None sends the resolver on to
        its next source. */
    method FinalizeL1Fetch(idOf: ContentId, id: Key, fetched: Verdict, env: Schedule) returns (r: Option<Result>)
      requires Wired()
      modifies store
      ensures fetched.Submit? && Verifies(idOf, id, fetched.data) ==>
                && r == Some(Resolved(fetched.data, L1Peer, true, fetched.paymentError))
                && store.Value() == PutAndEvict(old(store.Value()), eviction.budgetBytes, id, fetched.data, env).cache
      ensures !(fetched.Submit? && Verifies(idOf, id, fetched.data)) ==>
                r == None && store.Value() == old(store.Value())
    {
      if fetched.GiveUp? { return None; }
      if idOf(fetched.data) != Some(id) { return None; }
      store.Others(env(PUT));
      store.Put(id, fetched.data);
      var _ := eviction.Run(env, EVICTION);
      r := Some(Resolved(fetched.data, L1Peer, true, fetched.paymentError));
    }

    method ResolveFromWalrus(id: Key, walrus: Option<Bytes>, env: Schedule) returns (r: Result)
      requires Wired()
      modifies store
      ensures walrus.None? ==> r == Unavailable && store.Value() == old(store.Value())
      ensures walrus.Some? ==>
                var evicted := PutAndEvict(old(store.Value()), eviction.budgetBytes, id, walrus.value, env);
                && r == (if evicted.ok then Resolved(walrus.value, L3Walrus, true, None) else EvictionFailed)
                && store.Value() == evicted.cache
    {
      if walrus.None? { return Unavailable; }
      store.Others(env(PUT));
      store.Put(id, walrus.value);
      var ok := eviction.Run(env, EVICTION);
      r := if ok then Resolved(walrus.value, L3Walrus, true, None) else EvictionFailed;
    }

    /** `attempts` are what the peer fetches hand on, in the order they are tried. */
    method Resolve(idOf: ContentId, id: Key, attempts: seq<Verdict>, walrus: Option<Bytes>, env: Schedule)
      returns (r: Result)
      requires Wired()
      modifies store
      ensures Resolution(r, store.Value()) ==
              ResolveAmong(idOf, old(store.Value()), eviction.budgetBytes, id, attempts, walrus, env)
    {
      store.Others(env(LOOKUP));
      var local := store.Get(id);
      if local.Some? { return Resolved(local.value, LocalCache, true, None); }
      ghost var now := store.Value();
      for i := 0 to |attempts|
        invariant store.Value() == now
        invariant FirstVerified(idOf, id, attempts[i..]) == FirstVerified(idOf, id, attempts)
      {
        assert attempts[i..][1..] == attempts[i + 1..];
        var fetched := FinalizeL1Fetch(idOf, id, attempts[i], env);
        if fetched.Some? { return fetched.value; }
      }
      r := ResolveFromWalrus(id, walrus, env);
    }
  }

  // ----- Verified content -----

  lemma {:induction false} FirstVerifiedVerifies(idOf: ContentId, id: Key, attempts: seq<Verdict>)
    ensures var v := FirstVerified(idOf, id, attempts);
            v.Submit? ==> v in attempts && Verifies(idOf, id, v.data)
    ensures FirstVerified(idOf, id, attempts).GiveUp? ==>
              forall v :: v in attempts && v.Submit? ==> !Verifies(idOf, id, v.data)
  {
    if attempts != [] { FirstVerifiedVerifies(idOf, id, attempts[1..]); }
  }

  /** Others put only what names itself right. */
  ghost predicate PutsVerify(idOf: ContentId, changes: seq<Change>) {
    forall i :: 0 <= i < |changes| && changes[i].PutBlob? ==> Verifies(idOf, changes[i].id, changes[i].data)
  }

  ghost predicate OthersVerify(idOf: ContentId, env: Schedule) { forall u :: PutsVerify(idOf, env(u)) }

  lemma {:induction false} ChangesCoherent(idOf: ContentId, c: Cache, changes: seq<Change>)
    requires Coherent(idOf, c.blobs) && PutsVerify(idOf, changes)
    ensures Coherent(idOf, Changed(c, changes).blobs)
    decreases |changes|
  {
    if changes != [] { ChangesCoherent(idOf, Apply(c, changes[0]), changes[1..]); }
  }
}
