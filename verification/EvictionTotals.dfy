/** The running total of an eviction is a machine word: exactly when it goes below zero, and
    what the run then does to the store. */
module EvictionTotals {
  import opened Bytes
  import opened Words
  import opened Keys
  import opened MapSums
  import opened BlobStores
  import opened Eviction
  import opened EvictionRuns

  // ----- The wrapping total -----

  function SumOf(sizes: seq<nat>): nat { if sizes == [] then 0 else sizes[0] + SumOf(sizes[1..]) }

  /** How many candidates of these sizes the loop deletes. */
  function Deletions(sizes: seq<nat>, total: Word, budget: nat): nat {
    if sizes == [] || total <= budget then 0 else 1 + Deletions(sizes[1..], Minus(total, sizes[0]), budget)
  }

  /** Whether a subtraction of the loop goes below zero. */
  predicate Underflows(sizes: seq<nat>, total: Word, budget: nat) {
    sizes != [] && total > budget && (sizes[0] > total || Underflows(sizes[1..], Minus(total, sizes[0]), budget))
  }

  lemma SumOfFirst(sizes: seq<nat>, k: nat)
    requires 0 < k <= |sizes|
    ensures SumOf(sizes[..k]) == sizes[0] + SumOf(sizes[1..][..k - 1])
  {
    assert sizes[..k][1..] == sizes[1..][..k - 1];
  }

  /** The k-th subtraction is the first that goes below zero. */
  predicate StepsBelow(sizes: seq<nat>, total: Word, budget: nat, k: nat)
    requires k < |sizes|
  {
    SumOf(sizes[..k]) + budget < total < SumOf(sizes[..k + 1])
  }

  /** The loop underflows exactly when some prefix of the candidates leaves the total above
      the budget and the next candidate is larger than what is left. */
  lemma {:induction false} UnderflowsExactly(sizes: seq<nat>, total: Word, budget: nat)
    ensures Underflows(sizes, total, budget) <==> exists k :: 0 <= k < |sizes| && StepsBelow(sizes, total, budget, k)
    decreases |sizes|
  {
    if sizes != [] {
      SumOfFirst(sizes, 1);
      assert StepsBelow(sizes, total, budget, 0) <==> budget < total < sizes[0];
      if sizes[0] <= total {
        var rest, left := sizes[1..], Minus(total, sizes[0]);
        WordWithin(total - sizes[0]);
        UnderflowsExactly(rest, left, budget);
        forall k | 0 < k < |sizes|
          ensures StepsBelow(sizes, total, budget, k) <==> StepsBelow(rest, left, budget, k - 1)
        {
          SumOfFirst(sizes, k);
          SumOfFirst(sizes, k + 1);
        }
        if k :| 0 <= k < |rest| && StepsBelow(rest, left, budget, k) { assert StepsBelow(sizes, total, budget, k + 1); }
      } else {
        forall k | 0 < k < |sizes| ensures !StepsBelow(sizes, total, budget, k) { SumOfFirst(sizes, k); }
      }
    }
  }

  /** In any case the loop stops at the first prefix whose wrapped total is within the budget. */
  lemma {:induction false} DeletionsLeast(sizes: seq<nat>, total: int, budget: nat)
    ensures var n := Deletions(sizes, total % WORD, budget);
            && n <= |sizes|
            && (n < |sizes| ==> (total - SumOf(sizes[..n])) % WORD <= budget)
            && forall j :: 0 <= j < n ==> (total - SumOf(sizes[..j])) % WORD > budget
    decreases |sizes|
  {
    var n := Deletions(sizes, total % WORD, budget);
    if n > 0 {
      MinusMinus(total, sizes[0]);
      DeletionsLeast(sizes[1..], total - sizes[0], budget);
      forall j | 0 < j <= n ensures SumOf(sizes[..j]) == sizes[0] + SumOf(sizes[1..][..j - 1]) { SumOfFirst(sizes, j); }
    }
  }

  /** Without an underflow it is the least prefix that reaches the budget, or all there are. */
  lemma {:induction false} NoUnderflowIsExact(sizes: seq<nat>, total: Word, budget: nat)
    requires !Underflows(sizes, total, budget)
    ensures var n := Deletions(sizes, total, budget);
            && n <= |sizes|
            && SumOf(sizes[..n]) <= total
            && (n < |sizes| ==> total - SumOf(sizes[..n]) <= budget)
            && forall j :: 0 <= j < n ==> total - SumOf(sizes[..j]) > budget
    decreases |sizes|
  {
    var n := Deletions(sizes, total, budget);
    if n > 0 {
      WordWithin(total - sizes[0]);
      NoUnderflowIsExact(sizes[1..], Minus(total, sizes[0]), budget);
      forall j | 0 < j <= n ensures SumOf(sizes[..j]) == sizes[0] + SumOf(sizes[1..][..j - 1]) { SumOfFirst(sizes, j); }
    }
  }

  lemma {:induction false} LargeTotalDeletesAll(sizes: seq<nat>, total: Word, budget: nat)
    requires SumOf(sizes) + budget < total
    ensures Deletions(sizes, total, budget) == |sizes|
    decreases |sizes|
  {
    if sizes != [] {
      WordWithin(total - sizes[0]);
      LargeTotalDeletesAll(sizes[1..], Minus(total, sizes[0]), budget);
    }
  }

  /** With one, the total wraps far above the budget, and every candidate is deleted (as long
      as the candidates are too small to bring a wrapped total down to the budget again). */
  lemma {:induction false} UnderflowDeletesAll(sizes: seq<nat>, total: Word, budget: nat)
    requires Underflows(sizes, total, budget) && SumOf(sizes) + budget < WORD + total
    ensures Deletions(sizes, total, budget) == |sizes|
    decreases |sizes|
  {
    WordWithin(total - sizes[0]);
    if sizes[0] > total {
      LargeTotalDeletesAll(sizes[1..], Minus(total, sizes[0]), budget);
    } else {
      UnderflowDeletesAll(sizes[1..], Minus(total, sizes[0]), budget);
    }
  }

  function Sizes(candidates: seq<Candidate>): seq<nat> {
    if candidates == [] then [] else [candidates[0].1] + Sizes(candidates[1..])
  }

  function DeleteEach(c: Cache, candidates: seq<Candidate>, env: Schedule, t: nat): Cache
    decreases |candidates|
  {
    if candidates == [] then c
    else DeleteEach(Apply(Changed(c, env(t)), DeleteBlob(candidates[0].0)), candidates[1..], env, t + 1)
  }

  /** Whatever others do meanwhile, the loop deletes that many of its candidates, from the first on. */
  lemma {:induction false} DeletesThatMany(c: Cache, candidates: seq<Candidate>, total: Word, budget: nat,
                                           env: Schedule, t: nat)
    ensures var n := Deletions(Sizes(candidates), total, budget);
            && n <= |candidates|
            && DeleteAmong(c, candidates, total, budget, env, t) == DeleteEach(c, candidates[..n], env, t)
    decreases |candidates|
  {
    var n := Deletions(Sizes(candidates), total, budget);
    if n > 0 {
      var (id, size) := candidates[0];
      assert Sizes(candidates)[1..] == Sizes(candidates[1..]);
      var next := Apply(Changed(c, env(t)), DeleteBlob(id));
      DeletesThatMany(next, candidates[1..], Minus(total, size), budget, env, t + 1);
      assert candidates[..n][1..] == candidates[1..][..n - 1];
    }
  }

  lemma {:induction false} SizesLength(candidates: seq<Candidate>)
    ensures |Sizes(candidates)| == |candidates|
  {
    if candidates != [] { SizesLength(candidates[1..]); }
  }

  /** The first n candidates are what takes the total to the budget. */
  ghost predicate ReachesBudget(sizes: seq<nat>, total: Word, budget: nat, n: int) {
    && 0 <= n <= |sizes|
    && SumOf(sizes[..n]) <= total
    && (n < |sizes| ==> total - SumOf(sizes[..n]) <= budget)
    && forall j :: 0 <= j < n ==> total - SumOf(sizes[..j]) > budget
  }

  /** In every interleaving: a run above its budget that gets its candidates deletes the first
      n of them, each at its turn among the changes of others. That is the least prefix that
      takes its total to the budget, unless a subtraction underflows, and then it is all. */
  lemma RunDeletesExactly(c: Cache, budget: nat, env: Schedule, t: nat) returns (n: nat)
    requires TotalAmong(c, env, t).total > budget && EvictAmong(c, budget, env, t).ok
    ensures var (now, turn) := AtListing(c, env, t);
            var total := TotalAmong(c, env, t).total;
            var collected := CollectAmong(now, InOrder(now.blobs.Keys), env, turn);
            var found := collected.found.value;
            var sizes := Sizes(found);
            && n <= |found|
            && EvictAmong(c, budget, env, t).cache == DeleteEach(collected.cache, found[..n], env, collected.turn)
            && (if Underflows(sizes, total, budget)
                then SumOf(sizes) + budget < WORD + total ==> n == |found|
                else ReachesBudget(sizes, total, budget, n))
            && (Underflows(sizes, total, budget) <==>
                  exists k :: 0 <= k < |sizes| && StepsBelow(sizes, total, budget, k))
  {
    var (now, turn) := AtListing(c, env, t);
    var total := TotalAmong(c, env, t).total;
    var collected := CollectAmong(now, InOrder(now.blobs.Keys), env, turn);
    var sizes := Sizes(collected.found.value);
    n := Deletions(sizes, total, budget);
    SizesLength(collected.found.value);
    DeletesThatMany(collected.cache, collected.found.value, total, budget, env, collected.turn);
    UnderflowsExactly(sizes, total, budget);
    if !Underflows(sizes, total, budget) {
      NoUnderflowIsExact(sizes, total, budget);
    } else if SumOf(sizes) + budget < WORD + total {
      UnderflowDeletesAll(sizes, total, budget);
    }
  }

  // ----- What the total and the candidates are made of -----

  function SizeIn(c: Cache, id: Key): nat { if id in c.blobs then |c.blobs[id]| else 0 }

  /** The sum of the sizes from the i-th on, each as it is found at its own turn; a blob gone by
      then counts nothing. */
  function LookedUp(c: Cache, ids: seq<Key>, env: Schedule, t: nat, i: nat): nat
    requires i <= |ids|
    decreases |ids| - i
  {
    if i == |ids| then 0 else SizeIn(Later(c, env, t, i + 1), ids[i]) + LookedUp(c, ids, env, t, i + 1)
  }

  lemma {:induction false} LookedUpShift(c: Cache, ids: seq<Key>, env: Schedule, t: nat, i: nat)
    requires 0 < i <= |ids|
    ensures LookedUp(c, ids, env, t, i) == LookedUp(Changed(c, env(t)), ids[1..], env, t + 1, i - 1)
    decreases |ids| - i
  {
    if i < |ids| {
      LaterFirst(c, env, t, i + 1);
      LookedUpShift(c, ids, env, t, i + 1);
    }
  }

  lemma {:induction false} SumIsOfLookups(c: Cache, ids: seq<Key>, total: nat, env: Schedule, t: nat)
    ensures SumAmong(c, ids, total % WORD, env, t).total == (total + LookedUp(c, ids, env, t, 0)) % WORD
    decreases |ids|
  {
    if ids != [] {
      var now := Changed(c, env(t));
      assert Later(c, env, t, 0) == c && Later(c, env, t, 1) == now;
      LookedUpShift(c, ids, env, t, 1);
      PlusPlus(total, SizeIn(now, ids[0]));
      SumIsOfLookups(now, ids[1..], total + SizeIn(now, ids[0]), env, t + 1);
    }
  }

  /** In every interleaving the total is the sum of what the lookups found, modulo 2^64. */
  lemma TotalIsOfLookups(c: Cache, env: Schedule, t: nat)
    ensures var now := Changed(c, env(t));
            TotalAmong(c, env, t).total == LookedUp(now, InOrder(now.blobs.Keys), env, t + 1, 0) % WORD
  {
    var now := Changed(c, env(t));
    SumIsOfLookups(now, InOrder(now.blobs.Keys), 0, env, t + 1);
  }

  /** The listed ids from the i-th on that are not pinned at their look, in order, each with the
      size it has at its sizing. */
  function SeenWithSizes(c: Cache, ids: seq<Key>, env: Schedule, t: nat, i: nat): seq<Candidate>
    requires i <= |ids|
    decreases |ids| - i
  {
    if i == |ids| then []
    else
      (if ids[i] in Later(c, env, t, 2 * i + 1).pins then []
       else [(ids[i], SizeIn(Later(c, env, t, 2 * i + 2), ids[i]))]) + SeenWithSizes(c, ids, env, t, i + 1)
  }

  lemma {:induction false} FoundShift(c: Cache, ids: seq<Key>, env: Schedule, t: nat, i: nat)
    requires 0 < i <= |ids|
    ensures SeenWithSizes(c, ids, env, t, i) ==
            SeenWithSizes(Changed(Changed(c, env(t)), env(t + 1)), ids[1..], env, t + 2, i - 1)
    decreases |ids| - i
  {
    if i < |ids| {
      LaterTwo(c, env, t, 2 * i + 1);
      LaterTwo(c, env, t, 2 * i + 2);
      FoundShift(c, ids, env, t, i + 1);
    }
  }

  /** In every interleaving, what a finished collection holds: exactly those, in their order. */
  lemma {:induction false} FoundExactly(c: Cache, ids: seq<Key>, env: Schedule, t: nat)
    requires CollectAmong(c, ids, env, t).found.Some?
    ensures CollectAmong(c, ids, env, t).found.value == SeenWithSizes(c, ids, env, t, 0)
    decreases |ids|
  {
    if ids != [] {
      var seen := Changed(c, env(t));
      var sized := Changed(seen, env(t + 1));
      assert Later(c, env, t, 0) == c && Later(c, env, t, 1) == seen && Later(c, env, t, 2) == sized;
      FoundExactly(sized, ids[1..], env, t + 2);
      FoundShift(c, ids, env, t, 1);
      var rest := SeenWithSizes(c, ids, env, t, 1);
      assert [] + rest == rest;
    }
  }

  // ----- Others only between the total and the listing -----

  function SizesOf(s: Store, ks: seq<Key>): seq<nat> {
    if ks == [] then [] else [if ks[0] in s then |s[ks[0]]| else 0] + SizesOf(s, ks[1..])
  }

  function WithSizes(s: Store, ks: seq<Key>): seq<Candidate> {
    if ks == [] then [] else [(ks[0], if ks[0] in s then |s[ks[0]]| else 0)] + WithSizes(s, ks[1..])
  }

  lemma {:induction false} SizesAddUp(s: Store, ks: seq<Key>)
    ensures |SizesOf(s, ks)| == |ks| && SumOf(SizesOf(s, ks)) == SizeOf(s, ks)
  {
    if ks != [] {
      SizesAddUp(s, ks[1..]);
      assert SizesOf(s, ks)[1..] == SizesOf(s, ks[1..]);
    }
  }

  lemma {:induction false} CollectUndisturbed(c: Cache, ids: seq<Key>, env: Schedule, t: nat)
    requires QuietFrom(env, t) && forall k :: k in ids ==> k in c.blobs
    ensures CollectAmong(c, ids, env, t) ==
            Collected(c, Some(WithSizes(c.blobs, Unpinned(ids, c.pins))), t + 2 * |ids|)
    decreases |ids|
  {
    if ids != [] {
      assert env(t) == [] && env(t + 1) == [];
      assert ids[0] in ids;
      CollectUndisturbed(c, ids[1..], env, t + 2);
      var rest := Unpinned(ids[1..], c.pins);
      if ids[0] in c.pins {
        assert [] + rest == rest;
      } else {
        assert Unpinned(ids, c.pins)[1..] == rest;
      }
    }
  }

  lemma {:induction false} DeleteUndisturbed(c: Cache, ks: seq<Key>, s: Store, total: Word, budget: nat,
                                             env: Schedule, t: nat)
    requires QuietFrom(env, t) && forall k :: k in ks ==> k in s
    ensures Deletions(SizesOf(s, ks), total, budget) <= |ks|
    ensures DeleteAmong(c, WithSizes(s, ks), total, budget, env, t) ==
            c.(blobs := c.blobs - Listed(ks[..Deletions(SizesOf(s, ks), total, budget)]))
    decreases |ks|
  {
    var n := Deletions(SizesOf(s, ks), total, budget);
    if n == 0 {
      assert c.blobs - Listed(ks[..0]) == c.blobs;
    } else {
      var rest := ks[1..];
      assert env(t) == [] && ks[0] in ks;
      assert SizesOf(s, ks)[1..] == SizesOf(s, rest) && WithSizes(s, ks)[1..] == WithSizes(s, rest);
      var d := Apply(c, DeleteBlob(ks[0]));
      DeleteUndisturbed(d, rest, s, Minus(total, |s[ks[0]]|), budget, env, t + 1);
      assert ks[..n] == [ks[0]] + rest[..n - 1];
      assert d.blobs - Listed(rest[..n - 1]) == c.blobs - Listed(ks[..n]);
    }
  }

  /** What an eviction leaves of the store s when it took this total before. */
  ghost function LateVictims(s: Store, pins: set<Key>, total: Word, budget: nat): (v: seq<Key>)
    ensures |v| <= |Candidates(s, pins)|
  {
    var cs := Candidates(s, pins);
    SizesAddUp(s, cs);
    DeletionsLeast(SizesOf(s, cs), total, budget);
    cs[..Deletions(SizesOf(s, cs), total, budget)]
  }

  ghost function Late(now: Cache, total: Word, budget: nat): Evicted {
    Evicted(now.(blobs := now.blobs - Listed(LateVictims(now.blobs, now.pins, total, budget))), true)
  }

  /** Nothing happens after turn t but, perhaps, between the total and the listing. */
  ghost predicate QuietButOnce(env: Schedule, t: nat, once: nat) {
    forall u: nat :: t < u && u != once ==> env(u) == []
  }

  /** The turn of the second listing, if c is what the first one found. */
  function ListingTurn(c: Cache, t: nat): nat { t + 1 + |InOrder(c.blobs.Keys)| }

  /** The caches the total and the listing were taken from. */
  function Totalled(c: Cache, env: Schedule, t: nat): Cache { Changed(c, env(t)) }

  function ListedNow(c: Cache, env: Schedule, t: nat): Cache {
    Changed(Totalled(c, env, t), env(ListingTurn(Totalled(c, env, t), t)))
  }

  /** A run whose total was taken before others changed the cache to whatever they liked. */
  lemma LateChanges(c: Cache, budget: nat, env: Schedule, t: nat)
    requires QuietButOnce(env, t, ListingTurn(Totalled(c, env, t), t)) && StoreSize(Totalled(c, env, t).blobs) < WORD
    ensures var before := Totalled(c, env, t);
            EvictAmong(c, budget, env, t) ==
            if StoreSize(before.blobs) <= budget then Evicted(before, true)
            else Late(ListedNow(c, env, t), StoreSize(before.blobs), budget)
  {
    var before := Totalled(c, env, t);
    var turn, total := ListingTurn(before, t), StoreSize(before.blobs);
    TotalIsSize(c, env, t);
    if total > budget {
      QuietAfter(env, t, turn);
      AboveBudget(c, before, budget, env, t, total, turn);
    } else {
      AfterTotal(c, before, budget, env, t, total, turn);
    }
  }

  lemma AboveBudget(c: Cache, before: Cache, budget: nat, env: Schedule, t: nat, total: Word, turn: nat)
    requires TotalAmong(c, env, t) == Summed(before, total, turn) && total > budget && QuietFrom(env, turn + 1)
    ensures EvictAmong(c, budget, env, t) == Late(Changed(before, env(turn)), total, budget)
  {
    AfterTotal(c, before, budget, env, t, total, turn);
    ListedUndisturbed(Changed(before, env(turn)), total, budget, env, turn + 1);
  }

  lemma QuietAfter(env: Schedule, t: nat, once: nat)
    requires QuietButOnce(env, t, once) && t <= once
    ensures QuietFrom(env, once + 1)
  {
  }

  lemma TotalIsSize(c: Cache, env: Schedule, t: nat)
    requires QuietButOnce(env, t, ListingTurn(Totalled(c, env, t), t)) && StoreSize(Totalled(c, env, t).blobs) < WORD
    ensures var before := Totalled(c, env, t);
            TotalAmong(c, env, t) == Summed(before, StoreSize(before.blobs), ListingTurn(before, t))
  {
    TotalUndisturbed(c, env, t);
    WordWithin(StoreSize(Totalled(c, env, t).blobs));
  }

  lemma AfterTotal(c: Cache, before: Cache, budget: nat, env: Schedule, t: nat, total: Word, turn: nat)
    requires TotalAmong(c, env, t) == Summed(before, total, turn)
    ensures var now := Changed(before, env(turn));
            EvictAmong(c, budget, env, t) ==
            if total <= budget then Evicted(before, true)
            else CollectAndDelete(now, InOrder(now.blobs.Keys), total, budget, env, turn + 1)
  {
  }

  lemma ListedUndisturbed(now: Cache, total: Word, budget: nat, env: Schedule, t: nat)
    requires QuietFrom(env, t)
    ensures CollectAndDelete(now, InOrder(now.blobs.Keys), total, budget, env, t) ==
            Late(now, total, budget)
  {
    var ids, cs := InOrder(now.blobs.Keys), Candidates(now.blobs, now.pins);
    InOrderIsListing(now.blobs.Keys);
    CollectUndisturbed(now, ids, env, t);
    var turn := t + 2 * |ids|;
    CandidatesAreUnpinned(now.blobs, now.pins);
    DeleteUndisturbed(now, cs, now.blobs, total, budget, env, turn);
    assert CollectAmong(now, ids, env, t) == Collected(now, Some(WithSizes(now.blobs, cs)), turn);
  }

  /** Exactly when such a run underflows, and what it then does to the store: it deletes
      everything that is not pinned. If it does not, it deletes the least prefix of the
      candidates that takes the old total to the budget. */
  lemma LateChangesOutcome(c: Cache, budget: nat, env: Schedule, t: nat)
    requires QuietButOnce(env, t, ListingTurn(Totalled(c, env, t), t))
    requires budget < StoreSize(Totalled(c, env, t).blobs) < WORD
    requires StoreSize(ListedNow(c, env, t).blobs) + budget < WORD
    ensures var now, total := ListedNow(c, env, t), StoreSize(Totalled(c, env, t).blobs);
            var cs := Candidates(now.blobs, now.pins);
            var left := EvictAmong(c, budget, env, t).cache.blobs;
            && EvictAmong(c, budget, env, t).ok
            && (UnderflowsAt(now.blobs, cs, total, budget) ==> left == PinnedOnly(now))
            && (!UnderflowsAt(now.blobs, cs, total, budget) ==>
                  exists n :: IsLeastPrefix(now.blobs, cs, total, budget, n) && left == now.blobs - Listed(cs[..n]))
  {
    var now, total := ListedNow(c, env, t), StoreSize(Totalled(c, env, t).blobs);
    var cs := Candidates(now.blobs, now.pins);
    var sizes := SizesOf(now.blobs, cs);
    LateChanges(c, budget, env, t);
    SizesAddUp(now.blobs, cs);
    UnderflowsByKeys(now.blobs, cs, total, budget);
    if Underflows(sizes, total, budget) {
      CandidatesAreUnpinned(now.blobs, now.pins);
      SizeAfterDeletes(now.blobs, cs);
      UnderflowDeletesAll(sizes, total, budget);
      assert cs[..|cs|] == cs;
      assert now.blobs - Listed(cs) == PinnedOnly(now);
    } else {
      var n := Deletions(sizes, total, budget);
      NoUnderflowIsExact(sizes, total, budget);
      forall j | 0 <= j <= n ensures SumOf(sizes[..j]) == SizeOf(now.blobs, cs[..j]) { SizesPrefix(now.blobs, cs, j); }
      assert IsLeastPrefix(now.blobs, cs, total, budget, n);
    }
  }

  function PinnedOnly(c: Cache): Store { map k | k in c.blobs && k in c.pins :: c.blobs[k] }

  /** Some prefix of the candidates leaves the total above the budget, and the next one is
      larger than what is left of it. */
  ghost predicate UnderflowsAt(s: Store, cs: seq<Key>, total: nat, budget: nat) {
    exists k :: 0 <= k < |cs| && KeyStepsBelow(s, cs, total, budget, k)
  }

  predicate KeyStepsBelow(s: Store, cs: seq<Key>, total: nat, budget: nat, k: nat)
    requires k < |cs|
  {
    SizeOf(s, cs[..k]) + budget < total < SizeOf(s, cs[..k + 1])
  }

  ghost predicate IsLeastPrefix(s: Store, cs: seq<Key>, total: nat, budget: nat, n: int) {
    && 0 <= n <= |cs|
    && (n < |cs| ==> total - SizeOf(s, cs[..n]) <= budget)
    && (forall j :: 0 <= j < n ==> total - SizeOf(s, cs[..j]) > budget)
  }

  lemma {:induction false} SizesPrefix(s: Store, ks: seq<Key>, k: nat)
    requires k <= |ks|
    ensures |SizesOf(s, ks)| == |ks| && SumOf(SizesOf(s, ks)[..k]) == SizeOf(s, ks[..k])
    decreases k
  {
    SizesAddUp(s, ks);
    if k > 0 {
      SizesPrefix(s, ks[1..], k - 1);
      assert SizesOf(s, ks)[1..] == SizesOf(s, ks[1..]) && ks[..k][1..] == ks[1..][..k - 1];
      SumOfFirst(SizesOf(s, ks), k);
    }
  }

  lemma UnderflowsByKeys(s: Store, cs: seq<Key>, total: Word, budget: nat)
    ensures Underflows(SizesOf(s, cs), total, budget) <==> UnderflowsAt(s, cs, total, budget)
  {
    var sizes := SizesOf(s, cs);
    SizesAddUp(s, cs);
    UnderflowsExactly(sizes, total, budget);
    forall k | 0 <= k < |cs|
      ensures StepsBelow(sizes, total, budget, k) <==> KeyStepsBelow(s, cs, total, budget, k)
    {
      SizesPrefix(s, cs, k);
      SizesPrefix(s, cs, k + 1);
    }
  }

  /** Nobody interferes once it has begun: the run is the eviction of the whole store. */
  lemma RunUndisturbed(c: Cache, budget: nat, env: Schedule, t: nat)
    requires QuietFrom(env, t + 1) && StoreSize(Changed(c, env(t)).blobs) < WORD
    ensures var now := Changed(c, env(t));
            EvictAmong(c, budget, env, t) == Evicted(now.(blobs := Evict(now.blobs, now.pins, budget)), true)
  {
    LateChanges(c, budget, env, t);
    var s, pins := Totalled(c, env, t).blobs, Totalled(c, env, t).pins;
    var cs, total := Candidates(s, pins), StoreSize(s);
    TotalIsReal(s, pins, |cs|);
    assert cs[..|cs|] == cs;
    DeletionsAreEvictions(s, cs, total, budget);
    if total <= budget { assert s - Listed(cs[..0]) == s; }
  }

  lemma {:induction false} DeletionsAreEvictions(s: Store, cs: seq<Key>, total: Word, budget: nat)
    requires SizeOf(s, cs) <= total
    ensures Deletions(SizesOf(s, cs), total, budget) == Evictions(s, cs, total, budget)
    decreases |cs|
  {
    if cs != [] {
      var size := if cs[0] in s then |s[cs[0]]| else 0;
      assert SizesOf(s, cs)[1..] == SizesOf(s, cs[1..]);
      assert SizeOf(s, cs[..1]) == size + SizeOf(s, cs[..1][1..]);
      WordWithin(total - size);
      DeletionsAreEvictions(s, cs[1..], total - size, budget);
    }
  }

  /** A total taken from a store that holds all the candidates never underflows. */
  lemma {:induction false} NoUnderflow(sizes: seq<nat>, total: Word, budget: nat)
    requires SumOf(sizes) <= total
    ensures !Underflows(sizes, total, budget)
    decreases |sizes|
  {
    if sizes != [] {
      WordWithin(total - sizes[0]);
      NoUnderflow(sizes[1..], Minus(total, sizes[0]), budget);
    }
  }

  // ----- A late put -----

  lemma FirstCandidate(s: Store, pins: set<Key>, id: Key)
    requires id in s && id !in pins && forall k :: k in s && k != id ==> Less(id, k)
    ensures Candidates(s, pins) != [] && Candidates(s, pins)[0] == id
  {
    var cs := Candidates(s, pins);
    CandidatesAreUnpinned(s, pins);
    assert id in cs;
    if cs[0] != id {
      var i :| 0 <= i < |cs| && cs[i] == id;
      assert cs[0] in cs;
      LessTransitive(id, cs[0], id);
      LessIrreflexive(id);
    }
  }

  /** One put is enough: a blob larger than the old total, whose key comes first, put between
      the total and the listing, and the run deletes everything that is not pinned. */
  lemma LatePutDeletesAll(c: Cache, budget: nat, env: Schedule, t: nat, id: Key, data: Bytes)
    requires env(t) == [] && QuietButOnce(env, t, ListingTurn(c, t)) && env(ListingTurn(c, t)) == [PutBlob(id, data)]
    requires id !in c.blobs && id !in c.pins && forall k :: k in c.blobs ==> Less(id, k)
    requires budget < StoreSize(c.blobs) < |data| && StoreSize(c.blobs) + |data| + budget < WORD
    ensures EvictAmong(c, budget, env, t) == Evicted(c.(blobs := PinnedOnly(c)), true)
  {
    var now := Apply(c, PutBlob(id, data));
    assert [PutBlob(id, data)][1..] == [];
    assert Changed(c, env(t)) == c && Totalled(c, env, t) == c;
    assert Changed(c, [PutBlob(id, data)]) == Changed(now, []) == now;
    assert ListedNow(c, env, t) == now;
    MapSumInsert(c.blobs, Length, id, data);
    FirstCandidate(now.blobs, now.pins, id);
    var cs := Candidates(now.blobs, now.pins);
    assert SizeOf(now.blobs, cs[..1]) == |data| + SizeOf(now.blobs, cs[..1][1..]);
    assert KeyStepsBelow(now.blobs, cs, StoreSize(c.blobs), budget, 0);
    LateChangesOutcome(c, budget, env, t);
    LateChanges(c, budget, env, t);
    assert PinnedOnly(now) == PinnedOnly(c);
  }

  /** The store of the next lemma, with its late blob. */
  const BEFORE: Store := map["b" := [1, 2], "c" := [3, 4]]
  const LATE: Bytes := [5, 6, 7, 8, 9]

  lemma ExampleSizes()
    ensures StoreSize(BEFORE) == 4 && StoreSize(BEFORE["a" := LATE]) == 9
    ensures StoreSize(Ahead(BEFORE["a" := LATE], {}, "c")) == 7
  {
    var one: Store := map["b" := [1, 2]];
    var none: Store := map[];
    assert none["b" := [1, 2]] == one && one["c" := [3, 4]] == BEFORE;
    MapSumInsert(none, Length, "b", [1, 2]);
    MapSumInsert(one, Length, "c", [3, 4]);
    MapSumInsert(BEFORE, Length, "a", LATE);
    MapSumInsert(one, Length, "a", LATE);
    assert Less("a", "c") && Less("b", "c");
    LessIrreflexive("c");
    assert Ahead(BEFORE["a" := LATE], {}, "c") == one["a" := LATE];
  }

  /** Such a run loses "c", which the same run with a right total would have kept. */
  lemma LatePutUnderflows(env: Schedule, t: nat)
    requires env(t) == [] && QuietButOnce(env, t, ListingTurn(Cache(BEFORE, {}), t))
    requires env(ListingTurn(Cache(BEFORE, {}), t)) == [PutBlob("a", LATE)]
    ensures EvictAmong(Cache(BEFORE, {}), 3, env, t) == Evicted(Cache(map[], {}), true)
    ensures "c" in Evict(BEFORE["a" := LATE], {}, 3)
  {
    ExampleSizes();
    assert Less("a", "b") && Less("a", "c");
    LatePutDeletesAll(Cache(BEFORE, {}), 3, env, t, "a", LATE);
    assert PinnedOnly(Cache(BEFORE, {})) == map[];
    SurvivesExactly(BEFORE["a" := LATE], {}, 3, "c");
  }
}
