/** The eviction as it runs: one database access after another, with no lock on the store, so
    that others may put, delete, pin and unpin before each of them. */
module EvictionRuns {
  import opened Bytes
  import opened Words
  import opened Keys
  import opened BlobStores
  import opened Eviction

  type Candidate = (Key, nat)

  /** Unpinned ids with their sizes; None when a listed blob had no size any more. */
  datatype Collected = Collected(cache: Cache, found: Option<seq<Candidate>>, turn: nat)

  function Prepend(first: Candidate, rest: Option<seq<Candidate>>): Option<seq<Candidate>> {
    if rest.None? then None else Some([first] + rest.value)
  }

  /** Every id takes two turns: one to look at its pin, one to look up its size. */
  function CollectAmong(c: Cache, ids: seq<Key>, env: Schedule, t: nat): Collected
    decreases |ids|
  {
    if ids == [] then Collected(c, Some([]), t)
    else
      var seen := Changed(c, env(t));
      var sized := Changed(seen, env(t + 1));
      if ids[0] in seen.pins then CollectAmong(sized, ids[1..], env, t + 2)
      else if ids[0] !in sized.blobs then Collected(sized, None, t + 2)
      else
        var rest := CollectAmong(sized, ids[1..], env, t + 2);
        rest.(found := Prepend((ids[0], |sized.blobs[ids[0]]|), rest.found))
  }

  /** Delete candidates in order while the running total is above the budget. */
  function DeleteAmong(c: Cache, candidates: seq<Candidate>, total: Word, budget: nat, env: Schedule, t: nat): Cache
    decreases |candidates|
  {
    if candidates == [] || total <= budget then c
    else
      var (id, size) := candidates[0];
      DeleteAmong(Apply(Changed(c, env(t)), DeleteBlob(id)), candidates[1..], Minus(total, size), budget, env, t + 1)
  }

  datatype Evicted = Evicted(cache: Cache, ok: bool)

  function CollectAndDelete(c: Cache, ids: seq<Key>, total: Word, budget: nat, env: Schedule, t: nat): Evicted {
    var collected := CollectAmong(c, ids, env, t);
    if collected.found.None? then Evicted(collected.cache, false)
    else Evicted(DeleteAmong(collected.cache, collected.found.value, total, budget, env, collected.turn), true)
  }

  /** Sum the store, and if that is above the budget list it again, collect and delete. */
  function EvictAmong(c: Cache, budget: nat, env: Schedule, t: nat): Evicted {
    var sum := TotalAmong(c, env, t);
    if sum.total <= budget then Evicted(sum.cache, true)
    else
      var now := Changed(sum.cache, env(sum.turn));
      CollectAndDelete(now, InOrder(now.blobs.Keys), sum.total, budget, env, sum.turn + 1)
  }

  // ----- In place -----

  class EvictionManager {
    const store: BlobStore
    const budgetBytes: Word

    constructor (store: BlobStore, budgetBytes: Word)
      ensures this.store == store && this.budgetBytes == budgetBytes
    {
      this.store := store;
      this.budgetBytes := budgetBytes;
    }

    /** False stands for the error about a blob without a size. */
    method Run(env: Schedule, t: nat) returns (ok: bool)
      modifies store
      ensures Evicted(store.Value(), ok) == EvictAmong(old(store.Value()), budgetBytes, env, t)
    {
      var total, turn := store.TotalSize(env, t);
      if total <= budgetBytes { return true; }
      store.Others(env(turn));
      ok := CollectThenDelete(total, env, turn + 1);
    }

    method CollectThenDelete(total: Word, env: Schedule, t: nat) returns (ok: bool)
      modifies store
      ensures Evicted(store.Value(), ok) ==
              CollectAndDelete(old(store.Value()), InOrder(old(store.blobs.Keys)), total, budgetBytes, env, t)
    {
      var ids := store.ListBlobIds();
      var candidates, turn := Collect(ids, env, t);
      if candidates.None? { return false; }
      DeleteUntilWithin(candidates.value, total, env, turn);
      ok := true;
    }

    method Collect(ids: seq<Key>, env: Schedule, t: nat) returns (candidates: Option<seq<Candidate>>, turn: nat)
      modifies store
      ensures Collected(store.Value(), candidates, turn) == CollectAmong(old(store.Value()), ids, env, t)
    {
      turn := t;
      var found: seq<Candidate> := [];
      ghost var all := CollectAmong(store.Value(), ids, env, t);
      assert all == After(found, all) by { AfterNothing(all); }
      for n := 0 to |ids|
        invariant all == After(found, CollectAmong(store.Value(), ids[n..], env, turn))
      {
        assert ids[n..][1..] == ids[n + 1..];
        store.Others(env(turn));
        var pinned := store.IsPinned(ids[n]);
        store.Others(env(turn + 1));
        turn := turn + 2;
        if !pinned {
          var size := store.BlobSize(ids[n]);
          if size.None? { return None, turn; }
          AfterOne(found, (ids[n], size.value), CollectAmong(store.Value(), ids[n + 1..], env, turn));
          found := found + [(ids[n], size.value)];
        }
      }
      assert found + [] == found;
      candidates := Some(found);
    }

    method DeleteUntilWithin(candidates: seq<Candidate>, size: Word, env: Schedule, t: nat)
      modifies store
      ensures store.Value() == DeleteAmong(old(store.Value()), candidates, size, budgetBytes, env, t)
    {
      var total: Word := size;
      var i, turn := 0, t;
      while i < |candidates| && total > budgetBytes
        invariant i <= |candidates|
        invariant DeleteAmong(store.Value(), candidates[i..], total, budgetBytes, env, turn)
               == DeleteAmong(old(store.Value()), candidates, size, budgetBytes, env, t)
      {
        assert candidates[i..][1..] == candidates[i + 1..];
        store.Others(env(turn));
        store.Delete(candidates[i].0);
        total := Minus(total, candidates[i].1);
        i, turn := i + 1, turn + 1;
      }
    }
  }

  /** What was found so far, in front of the rest. */
  function After(found: seq<Candidate>, rest: Collected): Collected {
    rest.(found := if rest.found.None? then None else Some(found + rest.found.value))
  }

  lemma AfterNothing(rest: Collected)
    ensures After([], rest) == rest
  {
    if rest.found.Some? { assert [] + rest.found.value == rest.found.value; }
  }

  lemma AfterOne(found: seq<Candidate>, one: Candidate, rest: Collected)
    ensures After(found, rest.(found := Prepend(one, rest.found))) == After(found + [one], rest)
  {
    if rest.found.Some? { assert found + ([one] + rest.found.value) == found + [one] + rest.found.value; }
  }

  // ----- Exactly when it fails -----

  /** At its turn the i-th listed id is not pinned, and when its size is looked up it is gone. */
  predicate Missing(c: Cache, ids: seq<Key>, env: Schedule, t: nat, i: nat)
    requires i < |ids|
  {
    && ids[i] !in Later(c, env, t, 2 * i + 1).pins
    && ids[i] !in Later(c, env, t, 2 * i + 2).blobs
  }

  lemma MissingShift(c: Cache, ids: seq<Key>, env: Schedule, t: nat, i: nat)
    requires 0 < i < |ids|
    ensures Missing(c, ids, env, t, i)
       <==> Missing(Changed(Changed(c, env(t)), env(t + 1)), ids[1..], env, t + 2, i - 1)
  {
    LaterTwo(c, env, t, 2 * i + 1);
    LaterTwo(c, env, t, 2 * i + 2);
    assert ids[1..][i - 1] == ids[i];
  }

  lemma LaterTwo(c: Cache, env: Schedule, t: nat, n: nat)
    requires n >= 2
    ensures Later(c, env, t, n) == Later(Changed(Changed(c, env(t)), env(t + 1)), env, t + 2, n - 2)
  {
    LaterFirst(c, env, t, n);
    LaterFirst(Changed(c, env(t)), env, t + 1, n - 1);
  }

  lemma MissingFirst(c: Cache, ids: seq<Key>, env: Schedule, t: nat)
    requires ids != []
    ensures Missing(c, ids, env, t, 0)
       <==> ids[0] !in Changed(c, env(t)).pins && ids[0] !in Changed(Changed(c, env(t)), env(t + 1)).blobs
  {
    assert Later(c, env, t, 0) == c;
    assert Later(c, env, t, 1) == Changed(c, env(t));
    assert Later(c, env, t, 2) == Changed(Later(c, env, t, 1), env(t + 1));
  }

  /** Collecting fails exactly when some listed id that is not pinned is gone at its turn. */
  lemma {:induction false} CollectFailsExactly(c: Cache, ids: seq<Key>, env: Schedule, t: nat)
    ensures CollectAmong(c, ids, env, t).found.None? <==> exists i :: 0 <= i < |ids| && Missing(c, ids, env, t, i)
    decreases |ids|
  {
    if ids != [] {
      var sized, rest, next := Changed(Changed(c, env(t)), env(t + 1)), ids[1..], t + 2;
      MissingFirst(c, ids, env, t);
      CollectFailsExactly(sized, rest, env, next);
      if i :| 0 <= i < |ids| && Missing(c, ids, env, t, i) {
        if i > 0 { MissingShift(c, ids, env, t, i); }
      }
      if j :| 0 <= j < |rest| && Missing(sized, rest, env, next, j) {
        MissingShift(c, ids, env, t, j + 1);
      }
    }
  }

  /** The cache when the eviction lists the store the second time, and its turn. */
  function AtListing(c: Cache, env: Schedule, t: nat): (Cache, nat) {
    var sum := TotalAmong(c, env, t);
    (Changed(sum.cache, env(sum.turn)), sum.turn + 1)
  }

  /** A blob that was listed is gone, and not pinned, when the eviction comes to it. */
  ghost predicate LosesListed(c: Cache, env: Schedule, t: nat) {
    var (now, turn) := AtListing(c, env, t);
    var ids := InOrder(now.blobs.Keys);
    exists i :: 0 <= i < |ids| && Missing(now, ids, env, turn, i)
  }

  /** The run returns an error exactly when the total it took is above the budget and others
      remove a listed, unpinned blob before its size is looked up. */
  lemma RunFailsExactly(c: Cache, budget: nat, env: Schedule, t: nat)
    ensures !EvictAmong(c, budget, env, t).ok <==> TotalAmong(c, env, t).total > budget && LosesListed(c, env, t)
  {
    var (now, turn) := AtListing(c, env, t);
    CollectFailsExactly(now, InOrder(now.blobs.Keys), env, turn);
  }

  predicate Deletes(changes: seq<Change>, id: Key) { DeleteBlob(id) in changes }

  lemma {:induction false} GoneByDelete(c: Cache, changes: seq<Change>, id: Key)
    requires id in c.blobs && id !in Changed(c, changes).blobs
    ensures Deletes(changes, id)
    decreases |changes|
  {
    if changes[0] != DeleteBlob(id) { GoneByDelete(Apply(c, changes[0]), changes[1..], id); }
  }

  lemma {:induction false} GoneLater(c: Cache, env: Schedule, t: nat, n: nat, id: Key)
    requires id in c.blobs && id !in Later(c, env, t, n).blobs
    ensures exists u: nat :: t <= u < t + n && Deletes(env(u), id)
  {
    if id in Later(c, env, t, n - 1).blobs {
      GoneByDelete(Later(c, env, t, n - 1), env(t + n - 1), id);
    } else {
      GoneLater(c, env, t, n - 1, id);
    }
  }

  /** So only somebody's delete of a listed blob, between the listing and its turn, makes a
      run fail; without one every run succeeds, whatever else others do. */
  lemma OnlyDeletesFail(c: Cache, budget: nat, env: Schedule, t: nat)
    requires !EvictAmong(c, budget, env, t).ok
    ensures var (now, turn) := AtListing(c, env, t);
            turn > t && exists id, u: nat :: id in now.blobs && u >= turn && Deletes(env(u), id)
  {
    var first := Changed(c, env(t));
    SumTurns(first, InOrder(first.blobs.Keys), 0, env, t + 1);
    RunFailsExactly(c, budget, env, t);
    var (now, turn) := AtListing(c, env, t);
    var ids := InOrder(now.blobs.Keys);
    InOrderIsListing(now.blobs.Keys);
    var i :| 0 <= i < |ids| && Missing(now, ids, env, turn, i);
    assert ids[i] in ids;
    GoneLater(now, env, turn, 2 * i + 2, ids[i]);
  }
}
