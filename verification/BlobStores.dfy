/** The blob store and the pins beside it, updated in place. */
module BlobStores {
  import opened Bytes
  import opened Words
  import opened Keys
  import opened MapSums

  type Store = map<Key, Bytes>

  function Length(b: Bytes): nat { |b| }

  /** The bytes the store holds. */
  ghost function StoreSize(s: Store): nat { MapSum(s, Length) }

  function Lookup(s: Store, k: Key): Option<Bytes> { if k in s then Some(s[k]) else None }

  /** The bytes of the listed blobs, a missing one counting nothing. */
  function SizeOf(s: Store, ks: seq<Key>): nat {
    if ks == [] then 0 else (if ks[0] in s then |s[ks[0]]| else 0) + SizeOf(s, ks[1..])
  }

  function Listed(ks: seq<Key>): set<Key> { set k | k in ks }

  function Only(s: Store, ks: seq<Key>): Store { map k | k in s && k in ks :: s[k] }

  lemma {:induction false} SizeOfListing(s: Store, ks: seq<Key>)
    requires Ascending(ks) && forall k :: k in ks ==> k in s
    ensures SizeOf(s, ks) == StoreSize(Only(s, ks))
    decreases |ks|
  {
    if ks == [] {
      assert Only(s, ks) == map[];
    } else {
      var first, rest := ks[0], ks[1..];
      SizeOfListing(s, rest);
      assert first !in rest by {
        if first in rest {
          var j :| 0 <= j < |rest| && rest[j] == first;
          AscendingDistinct(ks, 0, j + 1);
        }
      }
      assert Only(s, ks) - {first} == Only(s, rest);
      MapSumRemove(Only(s, ks), Length, first);
    }
  }

  /** Adding up in key order gives the size of the store. */
  lemma SizeInOrder(s: Store)
    ensures SizeOf(s, InOrder(s.Keys)) == StoreSize(s)
  {
    InOrderIsListing(s.Keys);
    SizeOfListing(s, InOrder(s.Keys));
    assert Only(s, InOrder(s.Keys)) == s;
  }

  lemma {:induction false} SizeOfAppend(s: Store, a: seq<Key>, b: seq<Key>)
    ensures SizeOf(s, a + b) == SizeOf(s, a) + SizeOf(s, b)
  {
    if a == [] {
      assert a + b == b;
    } else {
      SizeOfAppend(s, a[1..], b);
      assert (a + b)[1..] == a[1..] + b;
    }
  }

  // ----- What others do meanwhile -----

  /** The blobs and the pins of one node. */
  datatype Cache = Cache(blobs: Store, pins: set<Key>)

  datatype Change =
    | PutBlob(id: Key, data: Bytes)
    | DeleteBlob(id: Key)
    | PinBlob(id: Key)
    | UnpinBlob(id: Key)

  function Apply(c: Cache, change: Change): Cache {
    match change
    case PutBlob(id, data) => c.(blobs := c.blobs[id := data])
    case DeleteBlob(id) => c.(blobs := c.blobs - {id})
    case PinBlob(id) => c.(pins := c.pins + {id})
    case UnpinBlob(id) => c.(pins := c.pins - {id})
  }

  function Changed(c: Cache, changes: seq<Change>): Cache
    decreases |changes|
  {
    if changes == [] then c else Changed(Apply(c, changes[0]), changes[1..])
  }

  lemma {:induction false} ChangedAppend(c: Cache, a: seq<Change>, b: seq<Change>)
    ensures Changed(c, a + b) == Changed(Changed(c, a), b)
    decreases |a|
  {
    if a == [] {
      assert a + b == b;
    } else {
      ChangedAppend(Apply(c, a[0]), a[1..], b);
      assert (a + b)[1..] == a[1..] + b;
    }
  }

  /** What others do to the cache just before each of a task's turns at the database. */
  type Schedule = nat -> seq<Change>

  /** The cache after n turns of others from turn t on. */
  function Later(c: Cache, env: Schedule, t: nat, n: nat): Cache {
    if n == 0 then c else Changed(Later(c, env, t, n - 1), env(t + n - 1))
  }

  ghost predicate QuietFrom(env: Schedule, t: nat) { forall u: nat :: t <= u ==> env(u) == [] }

  /** One turn first, then the others. */
  lemma {:induction false} LaterFirst(c: Cache, env: Schedule, t: nat, n: nat)
    requires n > 0
    ensures Later(c, env, t, n) == Later(Changed(c, env(t)), env, t + 1, n - 1)
  {
    if n > 1 { LaterFirst(c, env, t, n - 1); }
  }

  /** The running total of the blobs listed, each as it is found at its turn. */
  datatype Summed = Summed(cache: Cache, total: Word, turn: nat)

  function SumAmong(c: Cache, ids: seq<Key>, total: Word, env: Schedule, t: nat): Summed
    decreases |ids|
  {
    if ids == [] then Summed(c, total, t)
    else
      var now := Changed(c, env(t));
      SumAmong(now, ids[1..], if ids[0] in now.blobs then Plus(total, |now.blobs[ids[0]]|) else total, env, t + 1)
  }

  /** List the keys, then look up one size after another. */
  function TotalAmong(c: Cache, env: Schedule, t: nat): Summed {
    var now := Changed(c, env(t));
    SumAmong(now, InOrder(now.blobs.Keys), 0, env, t + 1)
  }

  ghost predicate QuietBetween(env: Schedule, t: nat, u: nat) { forall v: nat :: t <= v < u ==> env(v) == [] }

  lemma {:induction false} SumUndisturbed(c: Cache, ids: seq<Key>, total: nat, env: Schedule, t: nat)
    requires QuietBetween(env, t, t + |ids|)
    ensures SumAmong(c, ids, total % WORD, env, t) == Summed(c, (total + SizeOf(c.blobs, ids)) % WORD, t + |ids|)
    decreases |ids|
  {
    if ids != [] {
      assert env(t) == [];
      var size := if ids[0] in c.blobs then |c.blobs[ids[0]]| else 0;
      PlusPlus(total, size);
      SumUndisturbed(c, ids[1..], total + size, env, t + 1);
    }
  }

  lemma {:induction false} SumTurns(c: Cache, ids: seq<Key>, total: Word, env: Schedule, t: nat)
    ensures SumAmong(c, ids, total, env, t).turn == t + |ids|
    decreases |ids|
  {
    if ids != [] {
      var now := Changed(c, env(t));
      SumTurns(now, ids[1..], if ids[0] in now.blobs then Plus(total, |now.blobs[ids[0]]|) else total, env, t + 1);
    }
  }

  /** If nobody interferes once the keys are listed, the total is the size of the store, as far
      as a word holds it. */
  lemma TotalUndisturbed(c: Cache, env: Schedule, t: nat)
    requires QuietBetween(env, t + 1, t + 1 + |InOrder(Changed(c, env(t)).blobs.Keys)|)
    ensures var now := Changed(c, env(t));
            TotalAmong(c, env, t) == Summed(now, StoreSize(now.blobs) % WORD, t + 1 + |InOrder(now.blobs.Keys)|)
  {
    var now := Changed(c, env(t));
    SumUndisturbed(now, InOrder(now.blobs.Keys), 0, env, t + 1);
    SizeInOrder(now.blobs);
  }

  class BlobStore {
    var blobs: Store
    var pins: set<Key>

    function Value(): Cache
      reads this
    {
      Cache(blobs, pins)
    }

    constructor ()
      ensures blobs == map[] && pins == {}
    {
      blobs, pins := map[], {};
    }

    method Put(id: Key, data: Bytes)
      modifies this`blobs
      ensures blobs == old(blobs)[id := data]
    {
      blobs := blobs[id := data];
    }

    method Get(id: Key) returns (data: Option<Bytes>)
      ensures data == Lookup(blobs, id)
    {
      data := if id in blobs then Some(blobs[id]) else None;
    }

    method Delete(id: Key)
      modifies this`blobs
      ensures blobs == old(blobs) - {id}
    {
      blobs := blobs - {id};
    }

    method BlobSize(id: Key) returns (size: Option<nat>)
      ensures size == if id in blobs then Some(|blobs[id]|) else None
    {
      var data := Get(id);
      size := if data.Some? then Some(|data.value|) else None;
    }

    /** Follows the key iterator. */
    method ListBlobIds() returns (ids: seq<Key>)
      ensures ids == InOrder(blobs.Keys)
    {
      var iter := InOrder(blobs.Keys);
      ids := [];
      for i := 0 to |iter|
        invariant ids == iter[..i]
      {
        ids := ids + [iter[i]];
      }
      assert iter[..|iter|] == iter;
    }

    /** No lock is held between the lookups: others may come in before each. */
    method TotalSize(env: Schedule, t: nat) returns (total: Word, turn: nat)
      modifies this
      ensures Summed(Value(), total, turn) == TotalAmong(old(Value()), env, t)
    {
      Others(env(t));
      var ids := ListBlobIds();
      ghost var listed := Value();
      total, turn := 0, t + 1;
      for i := 0 to |ids|
        invariant SumAmong(Value(), ids[i..], total, env, turn) == SumAmong(listed, ids, 0, env, t + 1)
      {
        assert ids[i..][1..] == ids[i + 1..];
        Others(env(turn));
        var size := BlobSize(ids[i]);
        if size.Some? { total := Plus(total, size.value); }
        turn := turn + 1;
      }
    }

    /** What others do, one change after another. */
    method Others(changes: seq<Change>)
      modifies this
      ensures Value() == Changed(old(Value()), changes)
    {
      for i := 0 to |changes|
        invariant Changed(Value(), changes[i..]) == Changed(old(Value()), changes)
      {
        assert changes[i..][1..] == changes[i + 1..];
        match changes[i]
        case PutBlob(id, data) => Put(id, data);
        case DeleteBlob(id) => Delete(id);
        case PinBlob(id) => Pin(id);
        case UnpinBlob(id) => Unpin(id);
      }
    }

    method Pin(id: Key)
      modifies this`pins
      ensures pins == old(pins) + {id}
    {
      pins := pins + {id};
    }

    method Unpin(id: Key)
      modifies this`pins
      ensures pins == old(pins) - {id}
    {
      pins := pins - {id};
    }

    method IsPinned(id: Key) returns (pinned: bool)
      ensures pinned == (id in pins)
    {
      pinned := id in pins;
    }
  }
}
