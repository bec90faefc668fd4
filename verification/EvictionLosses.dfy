/** Which blobs an eviction takes from a node while others change its cache: exactly those it
    finds unpinned and reaches, pinned meanwhile or not. */
module EvictionLosses {
  import opened Bytes
  import opened Words
  import opened Keys
  import opened MapSums
  import opened BlobStores
  import opened EvictionRuns
  import opened EvictionTotals

  // ----- What others leave alone -----

  /** Nobody else deletes the blob from turn t on. */
  ghost predicate Undeleted(env: Schedule, t: nat, id: Key) { forall u: nat :: t <= u ==> !Deletes(env(u), id) }

  predicate Puts(changes: seq<Change>, id: Key) {
    exists i :: 0 <= i < |changes| && changes[i].PutBlob? && changes[i].id == id
  }

  /** Nobody else puts it. */
  ghost predicate Unput(env: Schedule, t: nat, id: Key) { forall u: nat :: t <= u ==> !Puts(env(u), id) }

  lemma StaysStored(c: Cache, env: Schedule, t: nat, n: nat, id: Key)
    requires id in c.blobs && Undeleted(env, t, id)
    ensures id in Later(c, env, t, n).blobs
  {
    if id !in Later(c, env, t, n).blobs { GoneLater(c, env, t, n, id); }
  }

  lemma {:induction false} StaysGone(c: Cache, changes: seq<Change>, id: Key)
    requires id !in c.blobs && !Puts(changes, id)
    ensures id !in Changed(c, changes).blobs
    decreases |changes|
  {
    if changes != [] {
      var rest := changes[1..];
      assert forall i :: 0 <= i < |rest| ==> rest[i] == changes[i + 1];
      StaysGone(Apply(c, changes[0]), changes[1..], id);
    }
  }

  // ----- Before the deletes a run only waits -----

  lemma {:induction false} SumIsLater(c: Cache, ids: seq<Key>, total: Word, env: Schedule, t: nat)
    ensures SumAmong(c, ids, total, env, t).cache == Later(c, env, t, |ids|)
    ensures SumAmong(c, ids, total, env, t).turn == t + |ids|
    decreases |ids|
  {
    if ids != [] {
      var now := Changed(c, env(t));
      LaterFirst(c, env, t, |ids|);
      SumIsLater(now, ids[1..], if ids[0] in now.blobs then Plus(total, |now.blobs[ids[0]]|) else total, env, t + 1);
    }
  }

  lemma LaterAppend(c: Cache, env: Schedule, t: nat, a: nat, b: nat)
    ensures Later(Later(c, env, t, a), env, t + a, b) == Later(c, env, t, a + b)
  {
    if b > 0 { LaterAppend(c, env, t, a, b - 1); }
  }

  /** The cache of the total and of the listing are what others have made of it by then. */
  lemma ListingIsLater(c: Cache, env: Schedule, t: nat)
    ensures var sum := TotalAmong(c, env, t);
            sum.turn > t && sum.cache == Later(c, env, t, sum.turn - t)
    ensures var (now, turn) := AtListing(c, env, t);
            turn > t && now == Later(c, env, t, turn - t)
  {
    var first := Changed(c, env(t));
    var ids := InOrder(first.blobs.Keys);
    SumIsLater(first, ids, 0, env, t + 1);
    LaterFirst(c, env, t, 1 + |ids|);
  }

  lemma {:induction false} CollectIsLater(c: Cache, ids: seq<Key>, env: Schedule, t: nat)
    ensures var r := CollectAmong(c, ids, env, t);
            r.turn >= t && r.cache == Later(c, env, t, r.turn - t)
    decreases |ids|
  {
    if ids != [] {
      var sized := Changed(Changed(c, env(t)), env(t + 1));
      CollectIsLater(sized, ids[1..], env, t + 2);
      LaterTwo(c, env, t, CollectAmong(c, ids, env, t).turn - t);
    }
  }

  // ----- Candidates -----

  predicate Among(candidates: seq<Candidate>, id: Key) {
    exists j :: 0 <= j < |candidates| && candidates[j].0 == id
  }

  /** The i-th listed id is this one, and not pinned when the run looks at it. */
  predicate SeenFree(c: Cache, ids: seq<Key>, env: Schedule, t: nat, id: Key, i: nat)
    requires i < |ids|
  {
    ids[i] == id && id !in Later(c, env, t, 2 * i + 1).pins
  }

  ghost predicate SeenUnpinned(c: Cache, ids: seq<Key>, env: Schedule, t: nat, id: Key) {
    exists i :: 0 <= i < |ids| && SeenFree(c, ids, env, t, id, i)
  }

  lemma SeenShift(c: Cache, ids: seq<Key>, env: Schedule, t: nat, id: Key, i: nat)
    requires 0 < i < |ids|
    ensures SeenFree(c, ids, env, t, id, i)
       <==> SeenFree(Changed(Changed(c, env(t)), env(t + 1)), ids[1..], env, t + 2, id, i - 1)
  {
    LaterTwo(c, env, t, 2 * i + 1);
    assert ids[1..][i - 1] == ids[i];
  }

  lemma SeenFirst(c: Cache, ids: seq<Key>, env: Schedule, t: nat, id: Key)
    requires ids != []
    ensures SeenUnpinned(c, ids, env, t, id) <==>
            || (ids[0] == id && id !in Changed(c, env(t)).pins)
            || SeenUnpinned(Changed(Changed(c, env(t)), env(t + 1)), ids[1..], env, t + 2, id)
  {
    var sized, rest, next := Changed(Changed(c, env(t)), env(t + 1)), ids[1..], t + 2;
    assert Later(c, env, t, 0) == c && Later(c, env, t, 1) == Changed(c, env(t));
    assert SeenFree(c, ids, env, t, id, 0) <==> ids[0] == id && id !in Changed(c, env(t)).pins;
    if i :| 0 <= i < |ids| && SeenFree(c, ids, env, t, id, i) {
      if i > 0 { SeenShift(c, ids, env, t, id, i); }
    }
    if j :| 0 <= j < |rest| && SeenFree(sized, rest, env, next, id, j) {
      SeenShift(c, ids, env, t, id, j + 1);
    }
  }

  lemma AmongCons(first: Candidate, rest: seq<Candidate>, id: Key)
    ensures Among([first] + rest, id) <==> first.0 == id || Among(rest, id)
  {
    var all := [first] + rest;
    assert all[0] == first && all[1..] == rest;
    if j :| 0 <= j < |rest| && rest[j].0 == id { assert all[j + 1].0 == id; }
    if j :| 0 <= j < |all| && all[j].0 == id { assert j > 0 ==> rest[j - 1].0 == id; }
  }

  /** A finished collection holds exactly the ids that were not pinned when looked at. */
  lemma {:induction false} CandidatesExactly(c: Cache, ids: seq<Key>, env: Schedule, t: nat, id: Key)
    requires CollectAmong(c, ids, env, t).found.Some?
    ensures Among(CollectAmong(c, ids, env, t).found.value, id) <==> SeenUnpinned(c, ids, env, t, id)
    decreases |ids|
  {
    if ids != [] {
      var seen := Changed(c, env(t));
      var sized := Changed(seen, env(t + 1));
      SeenFirst(c, ids, env, t, id);
      CandidatesExactly(sized, ids[1..], env, t + 2, id);
      if ids[0] !in seen.pins {
        AmongCons((ids[0], |sized.blobs[ids[0]]|), CollectAmong(sized, ids[1..], env, t + 2).found.value, id);
      }
    }
  }

  // ----- Deletes -----

  lemma AmongTail(candidates: seq<Candidate>, id: Key)
    requires candidates != []
    ensures Among(candidates, id) <==> candidates[0].0 == id || Among(candidates[1..], id)
  {
    assert candidates == [candidates[0]] + candidates[1..];
    AmongCons(candidates[0], candidates[1..], id);
  }

  lemma {:induction false} DeleteEachKeeps(c: Cache, candidates: seq<Candidate>, env: Schedule, t: nat, id: Key)
    requires id in c.blobs && Undeleted(env, t, id) && !Among(candidates, id)
    ensures id in DeleteEach(c, candidates, env, t).blobs
    decreases |candidates|
  {
    if candidates != [] {
      AmongTail(candidates, id);
      var now := Changed(c, env(t));
      if id !in now.blobs { GoneByDelete(c, env(t), id); }
      DeleteEachKeeps(Apply(now, DeleteBlob(candidates[0].0)), candidates[1..], env, t + 1, id);
    }
  }

  lemma {:induction false} DeleteEachTakes(c: Cache, candidates: seq<Candidate>, env: Schedule, t: nat, id: Key)
    requires Unput(env, t, id) && (id in c.blobs ==> Among(candidates, id))
    ensures id !in DeleteEach(c, candidates, env, t).blobs
    decreases |candidates|
  {
    if candidates != [] {
      AmongTail(candidates, id);
      var now := Changed(c, env(t));
      if id !in c.blobs { StaysGone(c, env(t), id); }
      DeleteEachTakes(Apply(now, DeleteBlob(candidates[0].0)), candidates[1..], env, t + 1, id);
    }
  }

  /** What a run deletes: the first candidates, as many as the wrapping total says. */
  function Deleted(found: seq<Candidate>, total: Word, budget: nat): seq<Candidate> {
    var n := Deletions(Sizes(found), total, budget);
    if n <= |found| then found[..n] else found
  }

  lemma DeletesFirst(c: Cache, found: seq<Candidate>, total: Word, budget: nat, env: Schedule, t: nat)
    ensures DeleteAmong(c, found, total, budget, env, t) == DeleteEach(c, Deleted(found, total, budget), env, t)
  {
    DeletesThatMany(c, found, total, budget, env, t);
  }

  // ----- Exactly which blobs are lost -----

  /** The run was above its budget and got its candidates; the blob was not pinned when looked
      at, and is one of the candidates deleted. */
  ghost predicate LosesBlob(c: Cache, budget: nat, env: Schedule, t: nat, id: Key) {
    var total := TotalAmong(c, env, t).total;
    var (now, turn) := AtListing(c, env, t);
    var ids := InOrder(now.blobs.Keys);
    var found := CollectAmong(now, ids, env, turn).found;
    && total > budget && found.Some?
    && SeenUnpinned(now, ids, env, turn, id)
    && Among(Deleted(found.value, total, budget), id)
  }

  lemma DeletedAreFound(found: seq<Candidate>, total: Word, budget: nat, id: Key)
    requires Among(Deleted(found, total, budget), id)
    ensures Among(found, id)
  {
    var j :| 0 <= j < |Deleted(found, total, budget)| && Deleted(found, total, budget)[j].0 == id;
    assert found[j].0 == id;
  }

  /** The steps of a run above its budget, for one blob nobody else deletes. */
  lemma BlobAtListing(c: Cache, env: Schedule, t: nat, id: Key)
    requires id in c.blobs && Undeleted(env, t, id)
    ensures var sum := TotalAmong(c, env, t); sum.turn > t && id in sum.cache.blobs
    ensures var (now, turn) := AtListing(c, env, t);
            var collected := CollectAmong(now, InOrder(now.blobs.Keys), env, turn);
            collected.turn >= turn > t && id in now.blobs && id in collected.cache.blobs
  {
    ListingIsLater(c, env, t);
    var sum := TotalAmong(c, env, t);
    var (now, turn) := AtListing(c, env, t);
    StaysStored(c, env, t, sum.turn - t, id);
    StaysStored(c, env, t, turn - t, id);
    StoredWhileCollecting(now, InOrder(now.blobs.Keys), env, turn, id);
  }

  lemma StoredWhileCollecting(c: Cache, ids: seq<Key>, env: Schedule, t: nat, id: Key)
    requires id in c.blobs && Undeleted(env, t, id)
    ensures var collected := CollectAmong(c, ids, env, t); collected.turn >= t && id in collected.cache.blobs
  {
    CollectIsLater(c, ids, env, t);
    StaysStored(c, env, t, CollectAmong(c, ids, env, t).turn - t, id);
  }

  /** Whatever else others do: a stored blob that nobody else deletes, and that is pinned when
      the run looks at it, survives, also when the total underflows. */
  lemma PinnedWhenSeenSurvives(c: Cache, budget: nat, env: Schedule, t: nat, id: Key)
    requires id in c.blobs && Undeleted(env, t, id)
    requires var (now, turn) := AtListing(c, env, t); !SeenUnpinned(now, InOrder(now.blobs.Keys), env, turn, id)
    ensures id in EvictAmong(c, budget, env, t).cache.blobs
  {
    NotLost(c, budget, env, t, id);
  }

  lemma NotLost(c: Cache, budget: nat, env: Schedule, t: nat, id: Key)
    requires id in c.blobs && Undeleted(env, t, id) && !LosesBlob(c, budget, env, t, id)
    ensures id in EvictAmong(c, budget, env, t).cache.blobs
  {
    BlobAtListing(c, env, t, id);
    var total := TotalAmong(c, env, t).total;
    var (now, turn) := AtListing(c, env, t);
    var ids := InOrder(now.blobs.Keys);
    var collected := CollectAmong(now, ids, env, turn);
    if total > budget && collected.found.Some? {
      var found := collected.found.value;
      DeletesFirst(collected.cache, found, total, budget, env, collected.turn);
      CandidatesExactly(now, ids, env, turn, id);
      if Among(Deleted(found, total, budget), id) { DeletedAreFound(found, total, budget, id); }
      DeleteEachKeeps(collected.cache, Deleted(found, total, budget), env, collected.turn, id);
    }
  }

  /** For a blob nobody else puts or deletes, in every interleaving: it is lost exactly when
      the run found it unpinned and reached it. */
  lemma LostExactly(c: Cache, budget: nat, env: Schedule, t: nat, id: Key)
    requires id in c.blobs && Undeleted(env, t, id) && Unput(env, t, id)
    ensures id !in EvictAmong(c, budget, env, t).cache.blobs <==> LosesBlob(c, budget, env, t, id)
  {
    if LosesBlob(c, budget, env, t, id) {
      BlobAtListing(c, env, t, id);
      var total := TotalAmong(c, env, t).total;
      var (now, turn) := AtListing(c, env, t);
      var collected := CollectAmong(now, InOrder(now.blobs.Keys), env, turn);
      var found := collected.found.value;
      DeletesFirst(collected.cache, found, total, budget, env, collected.turn);
      DeleteEachTakes(collected.cache, Deleted(found, total, budget), env, collected.turn, id);
    } else {
      NotLost(c, budget, env, t, id);
    }
  }

  // ----- Pinned all along, and pinned too late -----

  predicate Held(c: Cache, id: Key) { id in c.blobs && id in c.pins }

  /** Nobody unpins or deletes the blob. */
  ghost predicate LeftAlone(env: Schedule, t: nat, id: Key) {
    forall u: nat :: t <= u ==> UnpinBlob(id) !in env(u) && DeleteBlob(id) !in env(u)
  }

  lemma {:induction false} HeldThrough(c: Cache, changes: seq<Change>, id: Key)
    requires Held(c, id) && UnpinBlob(id) !in changes && DeleteBlob(id) !in changes
    ensures Held(Changed(c, changes), id)
    decreases |changes|
  {
    if changes != [] {
      assert changes[0] in changes;
      HeldThrough(Apply(c, changes[0]), changes[1..], id);
    }
  }

  lemma {:induction false} HeldLater(c: Cache, env: Schedule, t: nat, n: nat, id: Key)
    requires Held(c, id) && LeftAlone(env, t, id)
    ensures Held(Later(c, env, t, n), id)
  {
    if n > 0 {
      HeldLater(c, env, t, n - 1, id);
      HeldThrough(Later(c, env, t, n - 1), env(t + n - 1), id);
    }
  }

  lemma {:induction false} HeldThroughDeletes(c: Cache, candidates: seq<Candidate>, env: Schedule, t: nat, id: Key)
    requires Held(c, id) && LeftAlone(env, t, id) && !Among(candidates, id)
    ensures Held(DeleteEach(c, candidates, env, t), id)
    decreases |candidates|
  {
    if candidates != [] {
      AmongTail(candidates, id);
      HeldThrough(c, env(t), id);
      HeldThroughDeletes(Apply(Changed(c, env(t)), DeleteBlob(candidates[0].0)), candidates[1..], env, t + 1, id);
    }
  }

  /** So a blob pinned all along, which nobody unpins or deletes, survives and stays pinned. */
  lemma PinnedSurvives(c: Cache, budget: nat, env: Schedule, t: nat, id: Key)
    requires Held(c, id) && LeftAlone(env, t, id)
    ensures Held(EvictAmong(c, budget, env, t).cache, id)
  {
    ListingIsLater(c, env, t);
    var sum := TotalAmong(c, env, t);
    var (now, turn) := AtListing(c, env, t);
    HeldLater(c, env, t, sum.turn - t, id);
    HeldLater(c, env, t, turn - t, id);
    HeldFromListing(now, InOrder(now.blobs.Keys), sum.total, budget, env, turn, id);
  }

  lemma HeldFromListing(now: Cache, ids: seq<Key>, total: Word, budget: nat, env: Schedule, turn: nat, id: Key)
    requires Held(now, id) && LeftAlone(env, turn, id)
    ensures Held(CollectAndDelete(now, ids, total, budget, env, turn).cache, id)
  {
    var collected := CollectAmong(now, ids, env, turn);
    CollectIsLater(now, ids, env, turn);
    HeldLater(now, env, turn, collected.turn - turn, id);
    if collected.found.Some? {
      var found := collected.found.value;
      forall i | 0 <= i < |ids|
        ensures !SeenFree(now, ids, env, turn, id, i)
      {
        HeldLater(now, env, turn, 2 * i + 1, id);
      }
      CandidatesExactly(now, ids, env, turn, id);
      if Among(Deleted(found, total, budget), id) { DeletedAreFound(found, total, budget, id); }
      DeletesFirst(collected.cache, found, total, budget, env, collected.turn);
      HeldThroughDeletes(collected.cache, Deleted(found, total, budget), env, collected.turn, id);
    }
  }

  lemma OneKey(k: Key)
    ensures InOrder({k}) == [k]
  {
    var s := {k};
    assert IsLeast(k, s);
    LeastUnique(Least(s), k, s);
    assert s - {k} == {};
  }

  /** A blob pinned after the run has looked at it is deleted while it is pinned. */
  lemma PinnedTooLate(env: Schedule)
    requires env(5) == [PinBlob("a")] && forall u: nat :: u != 5 ==> env(u) == []
    ensures EvictAmong(Cache(map["a" := [1, 2]], {}), 1, env, 0) == Evicted(Cache(map[], {"a"}), true)
  {
    var c := Cache(map["a" := [1, 2]], {});
    var none: Store := map[];
    assert c.blobs.Keys == {"a"};
    OneKey("a");
    assert none["a" := [1, 2]] == c.blobs;
    MapSumInsert(none, Length, "a", [1, 2]);
    assert Changed(c, env(0)) == c;
    TotalUndisturbed(c, env, 0);
    assert AtListing(c, env, 0) == (c, 3);
    CollectTheOnly(c, env);
    var pinned := Apply(c, PinBlob("a"));
    assert [PinBlob("a")][1..] == [] && Changed(c, [PinBlob("a")]) == Changed(pinned, []) == pinned;
    assert Apply(pinned, DeleteBlob("a")) == Cache(map[], {"a"});
    assert DeleteAmong(c, [("a", 2)], 2, 1, env, 5) == Cache(map[], {"a"});
  }

  lemma CollectTheOnly(c: Cache, env: Schedule)
    requires c == Cache(map["a" := [1, 2]], {}) && env(3) == [] && env(4) == []
    ensures CollectAmong(c, ["a"], env, 3) == Collected(c, Some([("a", 2)]), 5)
  {
    assert Changed(c, env(3)) == c && ["a"][1..] == [];
    assert [("a", 2)] + [] == [("a", 2)];
  }
}
