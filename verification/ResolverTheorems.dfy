/** What callers of a resolve can rely on, whatever peers send and others do. */
module ResolverTheorems {
  import opened Bytes
  import opened Words
  import opened Keys
  import opened MapSums
  import opened BlobStores
  import opened Eviction
  import opened EvictionRuns
  import opened EvictionTotals
  import opened EvictionLosses
  import opened Turns
  import opened Fetch
  import opened Resolver
  import opened ResolveSteps

  /** Only Walrus is left, its content is above the budget with the rest of the store, and
      somebody deletes a listed, unpinned blob before the eviction has sized it. */
  ghost predicate LosesWalrusRead(idOf: ContentId, c: Cache, budget: nat, id: Key, attempts: seq<Verdict>,
                                  walrus: Bytes, env: Schedule) {
    var now := Changed(c, env(LOOKUP));
    var put := Apply(Changed(now, env(PUT)), PutBlob(id, walrus));
    && id !in now.blobs
    && (forall v :: v in attempts && v.Submit? ==> !Verifies(idOf, id, v.data))
    && TotalAmong(put, env, EVICTION).total > budget
    && LosesListed(put, env, EVICTION)
  }

  /** Whatever the peers send and others do, only content with the id asked for is returned or
      stored. If Walrus can serve the blob its bytes are what the caller gets, but for exactly
      one case: the eviction error. And the blob is unavailable exactly when no source has it. */
  lemma ResolveIsTrustless(idOf: ContentId, c: Cache, budget: nat, id: Key, attempts: seq<Verdict>,
                           walrus: Option<Bytes>, env: Schedule)
    requires CollisionFree(idOf) && Coherent(idOf, c.blobs) && WalrusAnswer(idOf, id, walrus) && OthersVerify(idOf, env)
    ensures var r := ResolveAmong(idOf, c, budget, id, attempts, walrus, env);
            && (r.result.Resolved? ==> Verifies(idOf, id, r.result.data))
            && Coherent(idOf, r.cache.blobs)
            && (walrus.Some? ==>
                  if LosesWalrusRead(idOf, c, budget, id, attempts, walrus.value, env) then r.result == EvictionFailed
                  else r.result.Resolved? && r.result.data == walrus.value)
            && (r.result.Unavailable? <==>
                  && id !in Changed(c, env(LOOKUP)).blobs && walrus.None?
                  && forall v :: v in attempts && v.Submit? ==> !Verifies(idOf, id, v.data))
  {
    var now := Changed(c, env(LOOKUP));
    assert PutsVerify(idOf, env(LOOKUP));
    ChangesCoherent(idOf, c, env(LOOKUP));
    FirstVerifiedVerifies(idOf, id, attempts);
    var q := Query(idOf, id, attempts, walrus, budget);
    var n := ResolveIsTurns(q, c, env);
    ChangesCoherent(idOf, c, Interleaved(ResolveAccesses(q), Task(c, LookingUp), env, 0, n));
    if walrus.Some? {
      RunFailsExactly(Apply(Changed(now, env(PUT)), PutBlob(id, walrus.value)), budget, env, EVICTION);
    }
  }

  /** The k-th attempt is the first whose data has the id asked for. */
  ghost predicate FirstTaken(idOf: ContentId, id: Key, attempts: seq<Verdict>, k: nat) {
    && k < |attempts|
    && attempts[k].Submit? && Verifies(idOf, id, attempts[k].data)
    && forall j: nat :: j < k ==> !(attempts[j].Submit? && Verifies(idOf, id, attempts[j].data))
  }

  lemma {:induction false} FirstVerifiedIs(idOf: ContentId, id: Key, attempts: seq<Verdict>, k: nat)
    requires FirstTaken(idOf, id, attempts, k)
    ensures FirstVerified(idOf, id, attempts) == attempts[k]
    decreases k
  {
    if k > 0 {
      assert forall j: nat :: j < k ==> attempts[1..][j] == attempts[j + 1];
      FirstVerifiedIs(idOf, id, attempts[1..], k - 1);
    }
  }

  /** Where the answer comes from, and with which payment error: what is stored; else the first
      attempt whose data verifies, with the payment error it was handed on with; else Walrus,
      with none, unless the eviction after it fails. */
  lemma AnswerComesFrom(idOf: ContentId, c: Cache, budget: nat, id: Key, attempts: seq<Verdict>,
                        walrus: Option<Bytes>, env: Schedule)
    ensures var now, r := Changed(c, env(LOOKUP)), ResolveAmong(idOf, c, budget, id, attempts, walrus, env).result;
            && (id in now.blobs ==> r == Resolved(now.blobs[id], LocalCache, true, None))
            && (id !in now.blobs ==> forall k: nat :: FirstTaken(idOf, id, attempts, k) ==>
                  r == Resolved(attempts[k].data, L1Peer, true, attempts[k].paymentError))
            && (id !in now.blobs && (forall k: nat :: !FirstTaken(idOf, id, attempts, k)) ==>
                  if walrus.None? then r == Unavailable
                  else r == Resolved(walrus.value, L3Walrus, true, None) || r == EvictionFailed)
  {
    forall k: nat | FirstTaken(idOf, id, attempts, k) ensures FirstVerified(idOf, id, attempts) == attempts[k] {
      FirstVerifiedIs(idOf, id, attempts, k);
    }
    if FirstVerified(idOf, id, attempts).Submit? { var k := SomeFirst(idOf, id, attempts); }
  }

  lemma {:induction false} SomeFirst(idOf: ContentId, id: Key, attempts: seq<Verdict>) returns (k: nat)
    requires FirstVerified(idOf, id, attempts).Submit?
    ensures FirstTaken(idOf, id, attempts, k)
  {
    k := 0;
    if !(attempts[0].Submit? && Verifies(idOf, id, attempts[0].data)) {
      var j := SomeFirst(idOf, id, attempts[1..]);
      assert forall i: nat :: i < |attempts| - 1 ==> attempts[1..][i] == attempts[i + 1];
      k := j + 1;
      forall i: nat | i < k ensures !(attempts[i].Submit? && Verifies(idOf, id, attempts[i].data)) {
        if i > 0 { assert attempts[1..][i - 1] == attempts[i]; }
      }
    }
  }

  /** So without somebody else's delete during the eviction, Walrus content is always returned. */
  lemma WalrusContentReturned(idOf: ContentId, c: Cache, budget: nat, id: Key, attempts: seq<Verdict>, walrus: Bytes,
                              env: Schedule)
    requires CollisionFree(idOf) && Coherent(idOf, c.blobs) && Verifies(idOf, id, walrus) && OthersVerify(idOf, env)
    requires forall k, u: nat :: u >= EVICTION ==> !Deletes(env(u), k)
    ensures var r := ResolveAmong(idOf, c, budget, id, attempts, Some(walrus), env).result;
            r.Resolved? && r.data == walrus
  {
    ResolveIsTrustless(idOf, c, budget, id, attempts, Some(walrus), env);
    var put := Apply(Changed(Changed(c, env(LOOKUP)), env(PUT)), PutBlob(id, walrus));
    RunFailsExactly(put, budget, env, EVICTION);
    if !EvictAmong(put, budget, env, EVICTION).ok { OnlyDeletesFail(put, budget, env, EVICTION); }
  }

  /** Exactly when a blob just fetched is still stored at the end. Others may do anything up
      to the eviction's first turn: the blob survives them, and then it is pinned, or dropping
      the unpinned blobs with smaller keys makes enough room. The result says `cached` anyway. */
  lemma CachedExactlyWhen(idOf: ContentId, c: Cache, budget: nat, id: Key, attempts: seq<Verdict>,
                          walrus: Option<Bytes>, env: Schedule)
    requires QuietFrom(env, EVICTION + 1) && id !in Changed(c, env(LOOKUP)).blobs
    requires ResolveAmong(idOf, c, budget, id, attempts, walrus, env).result.Resolved?
    requires var r := ResolveAmong(idOf, c, budget, id, attempts, walrus, env).result;
             StoreSize(AtEviction(c, id, r.data, env).blobs) < WORD
    ensures var r := ResolveAmong(idOf, c, budget, id, attempts, walrus, env);
            var put := AtEviction(c, id, r.result.data, env);
            && r.result.cached
            && (id in r.cache.blobs <==>
                  && id in put.blobs
                  && (id in put.pins || StoreSize(put.blobs) - StoreSize(Ahead(put.blobs, put.pins, id)) <= budget))
  {
    var r := ResolveAmong(idOf, c, budget, id, attempts, walrus, env).result;
    var put := AtEviction(c, id, r.data, env);
    RunUndisturbed(Apply(Changed(Changed(c, env(LOOKUP)), env(PUT)), PutBlob(id, r.data)), budget, env, EVICTION);
    EvictOutcome(put.blobs, put.pins, budget);
    if id in put.blobs && id !in put.pins { SurvivesExactly(put.blobs, put.pins, budget, id); }
  }

  /** The cache when the eviction begins to look at it. */
  function AtEviction(c: Cache, id: Key, data: Bytes, env: Schedule): Cache {
    Changed(Apply(Changed(Changed(c, env(LOOKUP)), env(PUT)), PutBlob(id, data)), env(EVICTION))
  }

  /** The same whatever others do during the eviction too, as long as nobody else puts or
      deletes the blob: it is gone exactly when the eviction finds it unpinned and reaches it. */
  lemma CachedUnlessLost(idOf: ContentId, c: Cache, budget: nat, id: Key, attempts: seq<Verdict>,
                         walrus: Option<Bytes>, env: Schedule)
    requires id !in Changed(c, env(LOOKUP)).blobs && Undeleted(env, EVICTION, id) && Unput(env, EVICTION, id)
    requires ResolveAmong(idOf, c, budget, id, attempts, walrus, env).result.Resolved?
    ensures var r := ResolveAmong(idOf, c, budget, id, attempts, walrus, env);
            var put := Apply(Changed(Changed(c, env(LOOKUP)), env(PUT)), PutBlob(id, r.result.data));
            && r.result.cached
            && (id in r.cache.blobs <==> !LosesBlob(put, budget, env, EVICTION, id))
  {
    var r := ResolveAmong(idOf, c, budget, id, attempts, walrus, env).result;
    LostExactly(Apply(Changed(Changed(c, env(LOOKUP)), env(PUT)), PutBlob(id, r.data)), budget, env, EVICTION, id);
  }

  /** A blob larger than the whole budget is returned as cached and dropped at once. */
  lemma CachedButGone(idOf: ContentId, budget: nat, id: Key, walrus: Bytes, env: Schedule)
    requires budget < |walrus| < WORD && QuietFrom(env, 0)
    ensures var r := ResolveAmong(idOf, Cache(map[], {}), budget, id, [], Some(walrus), env);
            r.result.Resolved? && r.result.cached && id !in r.cache.blobs
  {
    var empty := Cache(map[], {});
    var put: Store := map[id := walrus];
    assert env(LOOKUP) == [] && env(PUT) == [] && env(EVICTION) == [];
    assert empty.blobs[id := walrus] == put;
    MapSumInsert(empty.blobs, Length, id, walrus);
    RunUndisturbed(Cache(put, {}), budget, env, EVICTION);
    CachedExactlyWhen(idOf, empty, budget, id, [], Some(walrus), env);
    assert Ahead(put, {}, id) == map[] by { LessIrreflexive(id); }
  }

  lemma TwoKeys(j: Key, k: Key)
    requires Less(j, k)
    ensures InOrder({j, k}) == [j, k]
  {
    var s := {j, k};
    LessIrreflexive(j);
    assert IsLeast(j, s);
    LeastUnique(Least(s), j, s);
    assert s - {j} == {k};
    OneKey(k);
  }

  /** An input on which Walrus content is not returned: the eviction lists "a" and "b", and
      somebody deletes "a" before it has looked at it. */
  lemma WalrusReadLost(idOf: ContentId, env: Schedule)
    requires env(6) == [DeleteBlob("a")] && forall u: nat :: u != 6 ==> env(u) == []
    ensures ResolveAmong(idOf, Cache(map["a" := [1, 2]], {}), 1, "b", [], Some([3, 4]), env).result == EvictionFailed
  {
    var c := Cache(map["a" := [1, 2]], {});
    var put := Apply(c, PutBlob("b", [3, 4]));
    assert Changed(c, env(LOOKUP)) == c && Changed(c, env(PUT)) == c && Changed(put, env(EVICTION)) == put;
    assert Less("a", "b");
    assert put.blobs.Keys == {"a", "b"};
    TwoKeys("a", "b");
    TotalUndisturbed(put, env, EVICTION);
    MapSumInsert(c.blobs, Length, "b", [3, 4]);
    OneBlob();
    assert AtListing(put, env, EVICTION) == (put, 6);
    assert Later(put, env, 6, 0) == put && Later(put, env, 6, 1) == Changed(put, [DeleteBlob("a")]);
    var deleted := Apply(put, DeleteBlob("a"));
    assert Changed(put, [DeleteBlob("a")]) == Changed(deleted, []) == deleted;
    assert Later(put, env, 6, 2) == Changed(deleted, env(7)) == deleted;
    assert Missing(put, ["a", "b"], env, 6, 0);
    RunFailsExactly(put, 1, env, EVICTION);
  }

  lemma OneBlob()
    ensures StoreSize(map["a" := [1, 2]]) == 2
  {
    var none: Store := map[];
    assert none["a" := [1, 2]] == map["a" := [1, 2]];
    MapSumInsert(none, Length, "a", [1, 2]);
  }
}
