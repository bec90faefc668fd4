/** Blob ids as the store keeps them: strings in byte order, and the order a key iterator
    visits them in. */
module Keys {

  type Key = string

  predicate Less(a: Key, b: Key) {
    b != [] && (a == [] || a[0] < b[0] || (a[0] == b[0] && Less(a[1..], b[1..])))
  }

  lemma {:induction false} LessTotal(a: Key, b: Key)
    ensures a == b || Less(a, b) || Less(b, a)
  {
    if a != [] && b != [] && a[0] == b[0] {
      LessTotal(a[1..], b[1..]);
      assert a == [a[0]] + a[1..] && b == [b[0]] + b[1..];
    }
  }

  lemma {:induction false} LessTransitive(a: Key, b: Key, c: Key)
    requires Less(a, b) && Less(b, c)
    ensures Less(a, c)
  {
    if a != [] && a[0] == b[0] == c[0] { LessTransitive(a[1..], b[1..], c[1..]); }
  }

  lemma {:induction false} LessIrreflexive(a: Key)
    ensures !Less(a, a)
  {
    if a != [] { LessIrreflexive(a[1..]); }
  }

  predicate IsLeast(k: Key, s: set<Key>) {
    k in s && forall j :: j in s ==> j == k || Less(k, j)
  }

  lemma {:induction false} LeastExists(s: set<Key>) returns (k: Key)
    requires s != {}
    ensures IsLeast(k, s)
    decreases |s|
  {
    var x :| x in s;
    k := x;
    if s != {x} {
      assert exists y :: y in s && y != x;
      var y := LeastExists(s - {x});
      LessTotal(x, y);
      k := if Less(x, y) then x else y;
      forall j | j in s
        ensures j == k || Less(k, j)
      {
        if k == x && j != x && j != y { LessTransitive(x, y, j); }
      }
    }
  }

  lemma LeastUnique(j: Key, k: Key, s: set<Key>)
    requires IsLeast(j, s) && IsLeast(k, s)
    ensures j == k
  {
    if j != k {
      LessTransitive(j, k, j);
      LessIrreflexive(j);
    }
  }

  function Least(s: set<Key>): (k: Key)
    requires s != {}
    ensures IsLeast(k, s)
  {
    assert exists k :: IsLeast(k, s) by { var k := LeastExists(s); }
    assert forall j, k :: IsLeast(j, s) && IsLeast(k, s) ==> j == k by {
      forall j, k | IsLeast(j, s) && IsLeast(k, s) ensures j == k { LeastUnique(j, k, s); }
    }
    var k :| IsLeast(k, s);
    k
  }

  /** The keys in byte order. */
  function InOrder(s: set<Key>): seq<Key> {
    if s == {} then [] else [Least(s)] + InOrder(s - {Least(s)})
  }

  ghost predicate Ascending(ks: seq<Key>) {
    forall i, j :: 0 <= i < j < |ks| ==> Less(ks[i], ks[j])
  }

  lemma {:induction false} InOrderIsListing(s: set<Key>)
    ensures forall k :: k in InOrder(s) <==> k in s
    ensures Ascending(InOrder(s))
  {
    if s != {} {
      var first, rest := Least(s), InOrder(s - {Least(s)});
      InOrderIsListing(s - {first});
      assert forall k :: k in [first] + rest <==> k == first || k in rest;
      forall i, j | 0 <= i < j < |rest| + 1
        ensures Less(([first] + rest)[i], ([first] + rest)[j])
      {
        if i == 0 { assert rest[j - 1] in rest; }
      }
    }
  }

  lemma AscendingDistinct(ks: seq<Key>, i: nat, j: nat)
    requires Ascending(ks) && i < j < |ks|
    ensures ks[i] != ks[j]
  {
    LessIrreflexive(ks[i]);
  }

  /** In an ascending list the keys before the i-th are exactly the smaller ones. */
  lemma BeforeIsLess(ks: seq<Key>, i: nat, k: Key)
    requires Ascending(ks) && i < |ks| && k in ks
    ensures k in ks[..i] <==> Less(k, ks[i])
  {
    var j :| 0 <= j < |ks| && ks[j] == k;
    if j < i {
      assert ks[..i][j] == k;
    } else {
      if k in ks[..i] {
        var m :| 0 <= m < i && ks[..i][m] == k;
        AscendingDistinct(ks, m, j);
      }
      if Less(k, ks[i]) {
        if i < j { LessTransitive(ks[i], ks[j], ks[i]); }
        LessIrreflexive(ks[i]);
      }
    }
  }
}
