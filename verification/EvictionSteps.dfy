/** An eviction as a task that takes one turn after another at the cache; the run of
    EvictionRuns is what it comes to. */
module EvictionSteps {
  import opened Bytes
  import opened Words
  import opened Keys
  import opened BlobStores
  import opened EvictionRuns
  import opened Turns

  /** Where a run stands between two accesses to the database. */
  datatype Phase =
    | Starting
    | Summing(ids: seq<Key>, total: Word)
    | Listing(total: Word)
    | Looking(ids: seq<Key>, found: seq<Candidate>, total: Word)
    | Sizing(ids: seq<Key>, found: seq<Candidate>, total: Word, pinned: bool)
    | Deleting(candidates: seq<Candidate>, total: Word)
    | Done(ok: bool)

  function ThenSum(ids: seq<Key>, total: Word, budget: nat): Phase {
    if ids != [] then Summing(ids, total) else if total <= budget then Done(true) else Listing(total)
  }

  function ThenDelete(candidates: seq<Candidate>, total: Word, budget: nat): Phase {
    if candidates == [] || total <= budget then Done(true) else Deleting(candidates, total)
  }

  function ThenLook(ids: seq<Key>, found: seq<Candidate>, total: Word, budget: nat): Phase {
    if ids != [] then Looking(ids, found, total) else ThenDelete(found, total, budget)
  }

  /** One access: only deletes change the cache, and each of them one blob. */
  function Access(budget: nat, p: Phase, c: Cache): Acted<Phase> {
    match p
    case Starting => Acted([], ThenSum(InOrder(c.blobs.Keys), 0, budget))
    case Summing(ids, total) =>
      if ids == [] then Acted([], Done(true)) else
      Acted([], ThenSum(ids[1..], if ids[0] in c.blobs then Plus(total, |c.blobs[ids[0]]|) else total, budget))
    case Listing(total) => Acted([], ThenLook(InOrder(c.blobs.Keys), [], total, budget))
    case Looking(ids, found, total) =>
      if ids == [] then Acted([], Done(true)) else Acted([], Sizing(ids, found, total, ids[0] in c.pins))
    case Sizing(ids, found, total, pinned) =>
      if ids == [] then Acted([], Done(true))
      else if pinned then Acted([], ThenLook(ids[1..], found, total, budget))
      else if ids[0] !in c.blobs then Acted([], Done(false))
      else Acted([], ThenLook(ids[1..], found + [(ids[0], |c.blobs[ids[0]]|)], total, budget))
    case Deleting(candidates, total) =>
      if candidates == [] then Acted([], Done(true)) else
      Acted([DeleteBlob(candidates[0].0)], ThenDelete(candidates[1..], Minus(total, candidates[0].1), budget))
    case Done(ok) => Acted([], p)
  }

  function Accesses(budget: nat): (Phase, Cache) -> Acted<Phase> { (p, c) => Access(budget, p, c) }

  lemma OwnChange(budget: nat, p: Phase, c: Cache)
    ensures var own := Access(budget, p, c).own; own == [] || (|own| == 1 && own[0].DeleteBlob?)
  {
  }

  type Act = (Phase, Cache) -> Acted<Phase>

  /** This is the run, one access a turn. */
  ghost predicate Follows(act: Act, budget: nat) {
    forall p: Phase, c: Cache {:trigger Access(budget, p, c)} :: act(p, c) == Access(budget, p, c)
  }

  /** In n turns the run gets from one state to another. */
  predicate Gets(act: Act, from: Task<Phase>, env: Schedule, t: nat, n: nat, to: Task<Phase>) {
    Reaches(act, from, env, t, n, to)
  }

  /** One turn of the run. */
  function Next(budget: nat, task: Task<Phase>, changes: seq<Change>): Task<Phase> {
    var now := Changed(task.cache, changes);
    var acted := Access(budget, task.phase, now);
    Task(Changed(now, acted.own), acted.next)
  }

  lemma GetsNext(act: Act, budget: nat, task: Task<Phase>, env: Schedule, t: nat, to: Task<Phase>)
    requires Follows(act, budget)
    requires Next(budget, task, env(t)) == to
    ensures Gets(act, task, env, t, 1, to)
  {
    ReachesNext(act, task, env, t);
  }

  lemma GetsThen(act: Act, from: Task<Phase>, env: Schedule, t: nat,
                 a: nat, mid: Task<Phase>, b: nat, to: Task<Phase>)
    requires Gets(act, from, env, t, a, mid) && Gets(act, mid, env, t + a, b, to)
    ensures Gets(act, from, env, t, a + b, to)
  {
    ReachesThen(act, from, env, t, a, mid, b, to);
  }

  lemma GetsNowhere(act: Act, task: Task<Phase>, env: Schedule, t: nat)
    ensures Gets(act, task, env, t, 0, task)
  {
  }

  lemma SumStep(act: Act, c: Cache, ids: seq<Key>, total: Word, budget: nat, env: Schedule, t: nat)
    requires Follows(act, budget)
    requires ids != []
    ensures var now := Changed(c, env(t));
            var more := if ids[0] in now.blobs then Plus(total, |now.blobs[ids[0]]|) else total;
            Gets(act, Task(c, ThenSum(ids, total, budget)), env, t, 1, Task(now, ThenSum(ids[1..], more, budget)))
  {
    var now := Changed(c, env(t));
    var more := if ids[0] in now.blobs then Plus(total, |now.blobs[ids[0]]|) else total;
    GetsNext(act, budget, Task(c, ThenSum(ids, total, budget)), env, t, Task(now, ThenSum(ids[1..], more, budget)));
  }

  /** Where the whole sum leads. */
  function SumEnd(c: Cache, ids: seq<Key>, total: Word, budget: nat, env: Schedule, t: nat): Task<Phase> {
    var sum := SumAmong(c, ids, total, env, t);
    Task(sum.cache, ThenSum([], sum.total, budget))
  }

  lemma {:induction false} SumSteps(act: Act, c: Cache, ids: seq<Key>, total: Word, budget: nat, env: Schedule, t: nat)
    requires Follows(act, budget)
    ensures Gets(act, Task(c, ThenSum(ids, total, budget)), env, t, |ids|, SumEnd(c, ids, total, budget, env, t))
    decreases |ids|
  {
    var task, end := Task(c, ThenSum(ids, total, budget)), SumEnd(c, ids, total, budget, env, t);
    if ids == [] {
      GetsNowhere(act, task, env, t);
    } else {
      var now := Changed(c, env(t));
      var more := if ids[0] in now.blobs then Plus(total, |now.blobs[ids[0]]|) else total;
      var next, left := Task(now, ThenSum(ids[1..], more, budget)), |ids| - 1;
      SumSteps(act, now, ids[1..], more, budget, env, t + 1);
      assert SumEnd(now, ids[1..], more, budget, env, t + 1) == end && |ids[1..]| == left;
      SumStep(act, c, ids, total, budget, env, t);
      GetsThen(act, task, env, t, 1, next, left, end);
    }
  }

  /** Where a run goes once it has collected, after what it had found before. */
  function ThenCollected(before: seq<Candidate>, found: Option<seq<Candidate>>, total: Word, budget: nat): Phase {
    if found.None? then Done(false) else ThenDelete(before + found.value, total, budget)
  }

  lemma PrependFound(before: seq<Candidate>, one: Candidate, found: Option<seq<Candidate>>, total: Word, budget: nat)
    ensures ThenCollected(before, Prepend(one, found), total, budget) ==
            ThenCollected(before + [one], found, total, budget)
  {
    if found.Some? { assert before + ([one] + found.value) == before + [one] + found.value; }
  }

  /** Where the two turns of one id lead. */
  function AfterId(ids: seq<Key>, found: seq<Candidate>, total: Word, budget: nat, seen: Cache, sized: Cache): Phase
    requires ids != []
  {
    if ids[0] in seen.pins then ThenLook(ids[1..], found, total, budget)
    else if ids[0] !in sized.blobs then Done(false)
    else ThenLook(ids[1..], found + [(ids[0], |sized.blobs[ids[0]]|)], total, budget)
  }

  lemma IdSteps(act: Act, c: Cache, ids: seq<Key>, found: seq<Candidate>, total: Word, budget: nat, env: Schedule,
                t: nat)
    requires Follows(act, budget)
    requires ids != []
    ensures var seen := Changed(c, env(t));
            var sized := Changed(seen, env(t + 1));
            Gets(act, Task(c, ThenLook(ids, found, total, budget)), env, t, 2,
                 Task(sized, AfterId(ids, found, total, budget, seen, sized)))
  {
    var task := Task(c, ThenLook(ids, found, total, budget));
    var seen := Changed(c, env(t));
    var sized := Changed(seen, env(t + 1));
    var mid := Task(seen, Sizing(ids, found, total, ids[0] in seen.pins));
    var end := Task(sized, AfterId(ids, found, total, budget, seen, sized));
    GetsNext(act, budget, task, env, t, mid);
    GetsNext(act, budget, mid, env, t + 1, end);
    GetsThen(act, task, env, t, 1, mid, 1, end);
  }

  /** Where the whole collection leads. */
  function CollectEnd(c: Cache, ids: seq<Key>, found: seq<Candidate>, total: Word, budget: nat, env: Schedule, t: nat):
    Task<Phase>
  {
    var r := CollectAmong(c, ids, env, t);
    Task(r.cache, ThenCollected(found, r.found, total, budget))
  }

  /** Where it leads is where it leads after the first id. */
  lemma CollectOn(c: Cache, ids: seq<Key>, found: seq<Candidate>, total: Word, budget: nat, env: Schedule, t: nat)
    requires ids != []
    ensures var seen := Changed(c, env(t));
            var sized := Changed(seen, env(t + 1));
            var end := CollectEnd(c, ids, found, total, budget, env, t);
            && (ids[0] in seen.pins || ids[0] in sized.blobs ==>
                  CollectAmong(c, ids, env, t).turn == CollectAmong(sized, ids[1..], env, t + 2).turn)
            &&
            if ids[0] in seen.pins then end == CollectEnd(sized, ids[1..], found, total, budget, env, t + 2)
            else if ids[0] !in sized.blobs then end == Task(sized, Done(false))
            else
              end == CollectEnd(sized, ids[1..], found + [(ids[0], |sized.blobs[ids[0]]|)], total, budget, env, t + 2)
  {
    var seen := Changed(c, env(t));
    var sized := Changed(seen, env(t + 1));
    if ids[0] !in seen.pins && ids[0] in sized.blobs {
      var one := (ids[0], |sized.blobs[ids[0]]|);
      PrependFound(found, one, CollectAmong(sized, ids[1..], env, t + 2).found, total, budget);
    }
  }

  lemma {:induction false} CollectSteps(act: Act, c: Cache, ids: seq<Key>, found: seq<Candidate>, total: Word,
                                        budget: nat, env: Schedule, t: nat)
    requires Follows(act, budget)
    ensures var turn := CollectAmong(c, ids, env, t).turn;
            && turn >= t
            && Gets(act, Task(c, ThenLook(ids, found, total, budget)), env, t, turn - t,
                    CollectEnd(c, ids, found, total, budget, env, t))
    decreases |ids|
  {
    var task, end := Task(c, ThenLook(ids, found, total, budget)), CollectEnd(c, ids, found, total, budget, env, t);
    if ids == [] {
      assert found + [] == found;
      GetsNowhere(act, task, env, t);
    } else {
      var seen := Changed(c, env(t));
      var sized := Changed(seen, env(t + 1));
      IdSteps(act, c, ids, found, total, budget, env, t);
      CollectOn(c, ids, found, total, budget, env, t);
      if ids[0] in seen.pins {
        CollectSteps(act, sized, ids[1..], found, total, budget, env, t + 2);
        Collects(act, task, sized, ids[1..], found, total, budget, env, t);
      } else if ids[0] in sized.blobs {
        var now := found + [(ids[0], |sized.blobs[ids[0]]|)];
        CollectSteps(act, sized, ids[1..], now, total, budget, env, t + 2);
        Collects(act, task, sized, ids[1..], now, total, budget, env, t);
      }
    }
  }

  /** Two turns to where the rest of the collection starts, and then the rest. */
  lemma Collects(act: Act, from: Task<Phase>, sized: Cache, rest: seq<Key>, found: seq<Candidate>, total: Word,
                 budget: nat, env: Schedule, t: nat)
    requires Gets(act, from, env, t, 2, Task(sized, ThenLook(rest, found, total, budget)))
    requires var turn := CollectAmong(sized, rest, env, t + 2).turn;
             && turn >= t + 2
             && Gets(act, Task(sized, ThenLook(rest, found, total, budget)), env, t + 2, turn - (t + 2),
                     CollectEnd(sized, rest, found, total, budget, env, t + 2))
    ensures Gets(act, from, env, t, CollectAmong(sized, rest, env, t + 2).turn - t,
                 CollectEnd(sized, rest, found, total, budget, env, t + 2))
  {
    var left := CollectAmong(sized, rest, env, t + 2).turn - (t + 2);
    GetsThen(act, from, env, t, 2, Task(sized, ThenLook(rest, found, total, budget)), left,
             CollectEnd(sized, rest, found, total, budget, env, t + 2));
  }

  lemma {:induction false} DeleteSteps(act: Act, c: Cache, candidates: seq<Candidate>, total: Word, budget: nat,
                                       env: Schedule,
                                       t: nat)
    returns (n: nat)
    requires Follows(act, budget)
    ensures Gets(act, Task(c, ThenDelete(candidates, total, budget)), env, t, n,
                 Task(DeleteAmong(c, candidates, total, budget, env, t), Done(true)))
    decreases |candidates|
  {
    var task := Task(c, ThenDelete(candidates, total, budget));
    n := 0;
    if candidates == [] || total <= budget {
      GetsNowhere(act, task, env, t);
    } else {
      var now := Changed(c, env(t));
      var next, left := Apply(now, DeleteBlob(candidates[0].0)), Minus(total, candidates[0].1);
      var mid := Task(next, ThenDelete(candidates[1..], left, budget));
      assert Changed(now, [DeleteBlob(candidates[0].0)]) == Changed(next, []) == next;
      GetsNext(act, budget, task, env, t, mid);
      var k := DeleteSteps(act, next, candidates[1..], left, budget, env, t + 1);
      GetsThen(act, task, env, t, 1, mid, k, Task(DeleteAmong(c, candidates, total, budget, env, t), Done(true)));
      n := 1 + k;
    }
  }

  /** From the listing on. */
  lemma CollectAndDeleteSteps(act: Act, c: Cache, ids: seq<Key>, total: Word, budget: nat, env: Schedule, t: nat)
    returns (n: nat)
    requires Follows(act, budget)
    ensures var r := CollectAndDelete(c, ids, total, budget, env, t);
            Gets(act, Task(c, ThenLook(ids, [], total, budget)), env, t, n, Task(r.cache, Done(r.ok)))
  {
    var collected := CollectAmong(c, ids, env, t);
    CollectSteps(act, c, ids, [], total, budget, env, t);
    n := collected.turn - t;
    if collected.found.Some? {
      var k := FoundSteps(act, Task(c, ThenLook(ids, [], total, budget)), collected, n, total, budget, env, t);
      n := n + k;
    }
  }

  lemma FoundSteps(act: Act, from: Task<Phase>, collected: Collected, n: nat, total: Word, budget: nat,
                   env: Schedule, t: nat)
    returns (k: nat)
    requires Follows(act, budget)
    requires collected.found.Some? && collected.turn == t + n
    requires Gets(act, from, env, t, n, Task(collected.cache, ThenCollected([], collected.found, total, budget)))
    ensures Gets(act, from, env, t, n + k,
                 Task(DeleteAmong(collected.cache, collected.found.value, total, budget, env, t + n), Done(true)))
  {
    var found := collected.found.value;
    assert [] + found == found;
    k := DeleteSteps(act, collected.cache, found, total, budget, env, t + n);
    GetsThen(act, from, env, t, n, Task(collected.cache, ThenDelete(found, total, budget)), k,
             Task(DeleteAmong(collected.cache, found, total, budget, env, t + n), Done(true)));
  }

  /** The total. */
  lemma TotalSteps(act: Act, c: Cache, budget: nat, env: Schedule, t: nat)
    requires Follows(act, budget)
    ensures var sum := TotalAmong(c, env, t);
            && sum.turn > t
            && Gets(act, Task(c, Starting), env, t, sum.turn - t, Task(sum.cache, ThenSum([], sum.total, budget)))
  {
    var now := Changed(c, env(t));
    var ids := InOrder(now.blobs.Keys);
    var mid := Task(now, ThenSum(ids, 0, budget));
    GetsNext(act, budget, Task(c, Starting), env, t, mid);
    SumSteps(act, now, ids, 0, budget, env, t + 1);
    SumTurns(now, ids, 0, env, t + 1);
    GetsThen(act, Task(c, Starting), env, t, 1, mid, |ids|, SumEnd(now, ids, 0, budget, env, t + 1));
  }

  lemma ListSteps(act: Act, from: Task<Phase>, c: Cache, n: nat, total: Word, budget: nat, env: Schedule, t: nat)
    requires Follows(act, budget)
    requires Gets(act, from, env, t, n, Task(c, Listing(total)))
    ensures var now := Changed(c, env(t + n));
            Gets(act, from, env, t, n + 1, Task(now, ThenLook(InOrder(now.blobs.Keys), [], total, budget)))
  {
    var now := Changed(c, env(t + n));
    var looking := Task(now, ThenLook(InOrder(now.blobs.Keys), [], total, budget));
    GetsNext(act, budget, Task(c, Listing(total)), env, t + n, looking);
    GetsThen(act, from, env, t, n, Task(c, Listing(total)), 1, looking);
  }

  lemma RunSteps(act: Act, c: Cache, budget: nat, env: Schedule, t: nat) returns (n: nat)
    requires Follows(act, budget)
    ensures var r := EvictAmong(c, budget, env, t); Gets(act, Task(c, Starting), env, t, n, Task(r.cache, Done(r.ok)))
  {
    var sum, task := TotalAmong(c, env, t), Task(c, Starting);
    TotalSteps(act, c, budget, env, t);
    n := sum.turn - t;
    if sum.total > budget {
      var now := Changed(sum.cache, env(sum.turn));
      var ids := InOrder(now.blobs.Keys);
      ListSteps(act, task, sum.cache, n, sum.total, budget, env, t);
      var k := CollectAndDeleteSteps(act, now, ids, sum.total, budget, env, sum.turn + 1);
      var r := EvictAmong(c, budget, env, t);
      GetsThen(act, task, env, t, n + 1, Task(now, ThenLook(ids, [], sum.total, budget)), k, Task(r.cache, Done(r.ok)));
      n := n + 1 + k;
    }
  }

  /** A run is the task's turns: after n of them it is done, with the cache and the result of
      the run. After every turn on the way, the cache is what the others' changes so far, all
      of them in their order, make of it together with the run's own deletes between them. */
  lemma RunIsTurns(c: Cache, budget: nat, env: Schedule, t: nat) returns (n: nat)
    ensures var r := EvictAmong(c, budget, env, t);
            AfterTurns(Accesses(budget), Task(c, Starting), env, t, n) == Task(r.cache, Done(r.ok))
    ensures forall k: nat :: k <= n ==>
              AfterTurns(Accesses(budget), Task(c, Starting), env, t, k).cache ==
              Changed(c, Interleaved(Accesses(budget), Task(c, Starting), env, t, k))
  {
    n := RunSteps(Accesses(budget), c, budget, env, t);
    forall k: nat | k <= n
      ensures AfterTurns(Accesses(budget), Task(c, Starting), env, t, k).cache ==
              Changed(c, Interleaved(Accesses(budget), Task(c, Starting), env, t, k))
    {
      InterleavedIsRun(Accesses(budget), Task(c, Starting), env, t, k);
    }
  }
}
