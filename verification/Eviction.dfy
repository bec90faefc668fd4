/** Bringing the store back under its budget: which blobs go when nobody interferes. */
module Eviction {
  import opened Bytes
  import opened Keys
  import opened MapSums
  import opened BlobStores

  function Unpinned(ids: seq<Key>, pins: set<Key>): seq<Key> {
    if ids == [] then [] else
    (if ids[0] in pins then [] else [ids[0]]) + Unpinned(ids[1..], pins)
  }

  /** How many of the candidates are deleted before the total is within the budget. */
  function Evictions(s: Store, candidates: seq<Key>, total: int, budget: nat): nat {
    if candidates == [] || total <= budget then 0
    else 1 + Evictions(s, candidates[1..], total - SizeOf(s, candidates[..1]), budget)
  }

  function Candidates(s: Store, pins: set<Key>): seq<Key> { Unpinned(InOrder(s.Keys), pins) }

  ghost function Victims(s: Store, pins: set<Key>, budget: nat): (v: seq<Key>)
    ensures |v| <= |Candidates(s, pins)|
  {
    EvictionsBounded(s, Candidates(s, pins), StoreSize(s), budget);
    Candidates(s, pins)[..Evictions(s, Candidates(s, pins), StoreSize(s), budget)]
  }

  ghost function Evict(s: Store, pins: set<Key>, budget: nat): Store {
    s - Listed(Victims(s, pins, budget))
  }

  lemma {:induction false} EvictionsBounded(s: Store, candidates: seq<Key>, total: int, budget: nat)
    ensures Evictions(s, candidates, total, budget) <= |candidates|
    decreases |candidates|
  {
    if candidates != [] && total > budget {
      EvictionsBounded(s, candidates[1..], total - SizeOf(s, candidates[..1]), budget);
    }
  }

  /** The count is the least that reaches the budget, or all there are. */
  lemma {:induction false} EvictionsLeast(s: Store, candidates: seq<Key>, total: int, budget: nat)
    ensures var n := Evictions(s, candidates, total, budget);
            && n <= |candidates|
            && (n < |candidates| ==> total - SizeOf(s, candidates[..n]) <= budget)
            && forall j :: 0 <= j < n ==> total - SizeOf(s, candidates[..j]) > budget
    decreases |candidates|
  {
    var n := Evictions(s, candidates, total, budget);
    if n > 0 {
      var rest, left := candidates[1..], total - SizeOf(s, candidates[..1]);
      EvictionsLeast(s, rest, left, budget);
      forall j | 0 < j <= n
        ensures SizeOf(s, candidates[..j]) == SizeOf(s, candidates[..1]) + SizeOf(s, rest[..j - 1])
      {
        assert candidates[..j] == candidates[..1] + rest[..j - 1];
        SizeOfAppend(s, candidates[..1], rest[..j - 1]);
      }
    }
  }

  lemma {:induction false} UnpinnedIsSublist(ids: seq<Key>, pins: set<Key>)
    requires Ascending(ids)
    ensures Ascending(Unpinned(ids, pins))
    ensures forall k :: k in Unpinned(ids, pins) <==> k in ids && k !in pins
    decreases |ids|
  {
    if ids != [] {
      var first, rest := ids[0], Unpinned(ids[1..], pins);
      UnpinnedIsSublist(ids[1..], pins);
      assert forall k :: k in ids <==> k == first || k in ids[1..];
      forall k | k in rest
        ensures Less(first, k)
      {
        var j :| 0 <= j < |ids[1..]| && ids[1..][j] == k;
        assert ids[j + 1] == k;
      }
      if first !in pins {
        var all := Unpinned(ids, pins);
        assert all == [first] + rest;
        forall i, j | 0 <= i < j < |all|
          ensures Less(all[i], all[j])
        {
          if i == 0 { assert rest[j - 1] in rest; }
        }
        assert forall k :: k in all <==> k == first || k in rest;
      } else {
        assert Unpinned(ids, pins) == rest;
      }
    }
  }

  lemma CandidatesAreUnpinned(s: Store, pins: set<Key>)
    ensures Ascending(Candidates(s, pins))
    ensures forall k :: k in Candidates(s, pins) <==> k in s && k !in pins
  {
    InOrderIsListing(s.Keys);
    UnpinnedIsSublist(InOrder(s.Keys), pins);
  }

  lemma AscendingPrefix(ks: seq<Key>, n: nat)
    requires Ascending(ks) && n <= |ks|
    ensures Ascending(ks[..n]) && forall k :: k in ks[..n] ==> k in ks
  {
    forall k | k in ks[..n] ensures k in ks {
      var i :| 0 <= i < n && ks[..n][i] == k;
      assert ks[i] == k;
    }
  }

  /** Deleting listed blobs takes exactly their bytes off the store. */
  lemma {:induction false} SizeAfterDeletes(s: Store, ks: seq<Key>)
    requires Ascending(ks) && forall k :: k in ks ==> k in s
    ensures StoreSize(s - Listed(ks)) + SizeOf(s, ks) == StoreSize(s)
    decreases |ks|
  {
    if ks == [] {
      assert s - Listed(ks) == s;
    } else {
      var t, rest := s - {ks[0]}, ks[1..];
      MapSumRemove(s, Length, ks[0]);
      forall k | k in rest ensures k in t {
        var j :| 0 <= j < |rest| && rest[j] == k;
        AscendingDistinct(ks, 0, j + 1);
      }
      SizeAfterDeletes(t, rest);
      SameSizes(s, t, rest);
      assert t - Listed(rest) == s - Listed(ks);
    }
  }

  lemma {:induction false} SameSizes(s: Store, t: Store, ks: seq<Key>)
    requires forall k :: k in ks ==> k in s && k in t && s[k] == t[k]
    ensures SizeOf(s, ks) == SizeOf(t, ks)
  {
    if ks != [] { SameSizes(s, t, ks[1..]); }
  }

  /** The running total is the real size of the store after every deletion, and it never
      goes below zero. */
  lemma TotalIsReal(s: Store, pins: set<Key>, n: nat)
    requires n <= |Candidates(s, pins)|
    ensures StoreSize(s - Listed(Candidates(s, pins)[..n])) == StoreSize(s) - SizeOf(s, Candidates(s, pins)[..n])
  {
    CandidatesAreUnpinned(s, pins);
    AscendingPrefix(Candidates(s, pins), n);
    SizeAfterDeletes(s, Candidates(s, pins)[..n]);
  }

  /** What an eviction leaves: pinned blobs and everything kept are untouched, and either
      the store is within its budget or only pinned blobs are left. */
  lemma EvictOutcome(s: Store, pins: set<Key>, budget: nat)
    ensures forall k :: k in Evict(s, pins, budget) ==> k in s && Evict(s, pins, budget)[k] == s[k]
    ensures forall k :: k in s && k in pins ==> k in Evict(s, pins, budget)
    ensures StoreSize(Evict(s, pins, budget)) <= budget || forall k :: k in Evict(s, pins, budget) ==> k in pins
  {
    var cs := Candidates(s, pins);
    var n := Evictions(s, cs, StoreSize(s), budget);
    CandidatesAreUnpinned(s, pins);
    EvictionsLeast(s, cs, StoreSize(s), budget);
    AscendingPrefix(cs, n);
    TotalIsReal(s, pins, n);
    if n == |cs| { assert cs[..n] == cs; }
  }

  /** No fewer deletions, in this order, would have done. */
  lemma EvictLeast(s: Store, pins: set<Key>, budget: nat, j: nat)
    requires j < |Victims(s, pins, budget)|
    ensures StoreSize(s - Listed(Victims(s, pins, budget)[..j])) > budget
  {
    var cs := Candidates(s, pins);
    EvictionsLeast(s, cs, StoreSize(s), budget);
    assert Victims(s, pins, budget)[..j] == cs[..j];
    TotalIsReal(s, pins, j);
  }

  /** The unpinned blobs whose keys come before k. */
  ghost function Ahead(s: Store, pins: set<Key>, k: Key): Store {
    map j | j in s && j !in pins && Less(j, k) :: s[j]
  }

  /** Exactly which unpinned blobs survive: those for which deleting all the unpinned blobs
      with smaller keys is already enough. Age and use play no part. */
  lemma SurvivesExactly(s: Store, pins: set<Key>, budget: nat, k: Key)
    requires k in s && k !in pins
    ensures k in Evict(s, pins, budget) <==> StoreSize(s) - StoreSize(Ahead(s, pins, k)) <= budget
  {
    var cs := Candidates(s, pins);
    var total := StoreSize(s);
    var n := Evictions(s, cs, total, budget);
    CandidatesAreUnpinned(s, pins);
    EvictionsLeast(s, cs, total, budget);
    var i :| 0 <= i < |cs| && cs[i] == k;
    AscendingPrefix(cs, i);
    SizeOfListing(s, cs[..i]);
    assert Only(s, cs[..i]) == Ahead(s, pins, k) by {
      forall j | j in s && j !in pins
        ensures j in cs[..i] <==> Less(j, k)
      {
        BeforeIsLess(cs, i, j);
      }
    }
    if i < n {
      assert cs[..n][i] == k;
    } else {
      if k in cs[..n] {
        var m :| 0 <= m < n && cs[..n][m] == k;
        if m < i { AscendingDistinct(cs, m, i); }
      }
      PrefixGrows(s, cs, n, i);
    }
  }

  lemma PrefixGrows(s: Store, ks: seq<Key>, n: nat, i: nat)
    requires n <= i <= |ks|
    ensures SizeOf(s, ks[..n]) <= SizeOf(s, ks[..i])
  {
    assert ks[..i] == ks[..n] + ks[n..i];
    SizeOfAppend(s, ks[..n], ks[n..i]);
  }

  lemma SomeMember(ks: seq<Key>)
    ensures ks != [] ==> exists k :: k in ks
  {
    if ks != [] { assert ks[0] in ks; }
  }

  /** A second run finds nothing to do. */
  lemma EvictIdempotent(s: Store, pins: set<Key>, budget: nat)
    ensures Evict(Evict(s, pins, budget), pins, budget) == Evict(s, pins, budget)
  {
    var t := Evict(s, pins, budget);
    EvictOutcome(s, pins, budget);
    CandidatesAreUnpinned(t, pins);
    SomeMember(Candidates(t, pins));
    assert Victims(t, pins, budget) == [];
  }
}
