/** A resolve as a task that takes one turn after another at the cache, its eviction and all. */
module ResolveSteps {
  import opened Bytes
  import opened Words
  import opened Keys
  import opened BlobStores
  import opened EvictionRuns
  import opened Turns
  import opened EvictionSteps
  import opened Fetch
  import opened Resolver

  /** What a resolve was asked for, and what its sources hand on. */
  datatype Query = Query(idOf: ContentId, id: Key, attempts: seq<Verdict>, walrus: Option<Bytes>, budget: nat)

  /** Where a resolve stands between two accesses; `result` is what it returns if the eviction
      succeeds, or fetched from a peer in any case. */
  datatype Stage =
    | LookingUp
    | Putting(data: Bytes, result: Result)
    | Evicting(phase: Phase, result: Result)
    | Finished(result: Result)

  function ThenEvict(phase: Phase, result: Result): Stage {
    if phase.Done? then
      Finished(if phase.ok || (result.Resolved? && result.layer.L1Peer?) then result else EvictionFailed)
    else Evicting(phase, result)
  }

  function NotLocal(q: Query): Stage {
    var fetched := FirstVerified(q.idOf, q.id, q.attempts);
    if fetched.Submit? then Putting(fetched.data, Resolved(fetched.data, L1Peer, true, fetched.paymentError))
    else if q.walrus.None? then Finished(Unavailable)
    else Putting(q.walrus.value, Resolved(q.walrus.value, L3Walrus, true, None))
  }

  function ResolveAccess(q: Query, stage: Stage, c: Cache): Acted<Stage> {
    match stage
    case LookingUp =>
      Acted([], if q.id in c.blobs then Finished(Resolved(c.blobs[q.id], LocalCache, true, None)) else NotLocal(q))
    case Putting(data, result) => Acted([PutBlob(q.id, data)], ThenEvict(Starting, result))
    case Evicting(phase, result) =>
      var acted := Access(q.budget, phase, c);
      Acted(acted.own, ThenEvict(acted.next, result))
    case Finished(result) => Acted([], stage)
  }

  function ResolveAccesses(q: Query): (Stage, Cache) -> Acted<Stage> { (stage, c) => ResolveAccess(q, stage, c) }

  type ResolveAct = (Stage, Cache) -> Acted<Stage>

  /** This is the resolve, one access a turn. */
  ghost predicate Resolves(act: ResolveAct, q: Query) {
    forall stage: Stage, c: Cache {:trigger ResolveAccess(q, stage, c)} :: act(stage, c) == ResolveAccess(q, stage, c)
  }

  lemma Once(act: ResolveAct, q: Query, task: Task<Stage>, env: Schedule, t: nat)
    requires Resolves(act, q)
    ensures var now := Changed(task.cache, env(t));
            var acted := ResolveAccess(q, task.phase, now);
            Reaches(act, task, env, t, 1, Task(Changed(now, acted.own), acted.next))
  {
    ReachesNext(act, task, env, t);
  }

  /** The eviction's turns are turns of the resolve. */
  lemma {:induction false} EvictionTurns(act: ResolveAct, q: Query, evict: Act, c: Cache, phase: Phase, result: Result,
                                         env: Schedule, t: nat, n: nat)
    requires Resolves(act, q) && Follows(evict, q.budget)
    ensures var end := AfterTurns(evict, Task(c, phase), env, t, n);
            Reaches(act, Task(c, ThenEvict(phase, result)), env, t, n, Task(end.cache, ThenEvict(end.phase, result)))
  {
    var from := Task(c, ThenEvict(phase, result));
    if n == 0 {
      ReachesItself(act, from, env, t);
    } else {
      EvictionTurns(act, q, evict, c, phase, result, env, t, n - 1);
      var before := AfterTurns(evict, Task(c, phase), env, t, n - 1);
      var mid := Task(before.cache, ThenEvict(before.phase, result));
      EvictionTurn(act, q, evict, before, result, env, t + n - 1);
      var end := OneTurn(evict, before, env(t + n - 1));
      ReachesThen(act, from, env, t, n - 1, mid, 1, Task(end.cache, ThenEvict(end.phase, result)));
    }
  }

  lemma EvictionTurn(act: ResolveAct, q: Query, evict: Act, before: Task<Phase>, result: Result, env: Schedule, t: nat)
    requires Resolves(act, q) && Follows(evict, q.budget)
    ensures var end := OneTurn(evict, before, env(t));
            Reaches(act, Task(before.cache, ThenEvict(before.phase, result)), env, t, 1,
                    Task(end.cache, ThenEvict(end.phase, result)))
  {
    var now := Changed(before.cache, env(t));
    assert evict(before.phase, now) == Access(q.budget, before.phase, now);
    Once(act, q, Task(before.cache, ThenEvict(before.phase, result)), env, t);
  }

  lemma PutSteps(act: ResolveAct, q: Query, c: Cache, data: Bytes, result: Result, env: Schedule) returns (n: nat)
    requires Resolves(act, q)
    ensures var r := PutAndEvict(c, q.budget, q.id, data, env);
            Reaches(act, Task(c, Putting(data, result)), env, PUT, n, Task(r.cache, ThenEvict(Done(r.ok), result)))
  {
    var now := Changed(c, env(PUT));
    var put := Apply(now, PutBlob(q.id, data));
    assert Changed(now, [PutBlob(q.id, data)]) == Changed(put, []) == put;
    var task, mid := Task(c, Putting(data, result)), Task(put, ThenEvict(Starting, result));
    Once(act, q, task, env, PUT);
    var evict := Accesses(q.budget);
    var k := RunSteps(evict, put, q.budget, env, EVICTION);
    EvictionTurns(act, q, evict, put, Starting, result, env, EVICTION, k);
    var r := EvictAmong(put, q.budget, env, EVICTION);
    ReachesThen(act, task, env, PUT, 1, mid, k, Task(r.cache, ThenEvict(Done(r.ok), result)));
    n := 1 + k;
  }

  function Answer(q: Query, c: Cache, env: Schedule): Resolution {
    ResolveAmong(q.idOf, c, q.budget, q.id, q.attempts, q.walrus, env)
  }

  /** The resolve of Resolver is what the task comes to. */
  lemma AnswerSteps(act: ResolveAct, q: Query, c: Cache, env: Schedule) returns (n: nat)
    requires Resolves(act, q)
    ensures var r := Answer(q, c, env);
            Reaches(act, Task(c, LookingUp), env, LOOKUP, n, Task(r.cache, Finished(r.result)))
  {
    var now := Changed(c, env(LOOKUP));
    Once(act, q, Task(c, LookingUp), env, LOOKUP);
    n := 1;
    if q.id !in now.blobs && NotLocal(q).Putting? {
      var stage, r := NotLocal(q), Answer(q, c, env);
      var k := PutSteps(act, q, now, stage.data, stage.result, env);
      ReachesThen(act, Task(c, LookingUp), env, LOOKUP, 1, Task(now, stage), k, Task(r.cache, Finished(r.result)));
      n := 1 + k;
    }
  }

  /** What a stage will still put has the id asked for. */
  predicate PutsRight(q: Query, stage: Stage) { stage.Putting? ==> Verifies(q.idOf, q.id, stage.data) }

  lemma AccessPutsRight(q: Query, stage: Stage, c: Cache)
    requires WalrusAnswer(q.idOf, q.id, q.walrus) && PutsRight(q, stage)
    ensures var acted := ResolveAccess(q, stage, c); PutsVerify(q.idOf, acted.own) && PutsRight(q, acted.next)
  {
    FirstVerifiedVerifies(q.idOf, q.id, q.attempts);
    if stage.Evicting? { OwnChange(q.budget, stage.phase, c); }
  }

  /** Everything put in the first n turns, by the resolve or by others, names itself right. */
  lemma {:induction false} InterleavedVerifies(act: ResolveAct, q: Query, c: Cache, env: Schedule, n: nat)
    requires Resolves(act, q) && WalrusAnswer(q.idOf, q.id, q.walrus) && OthersVerify(q.idOf, env)
    ensures PutsRight(q, AfterTurns(act, Task(c, LookingUp), env, 0, n).phase)
    ensures PutsVerify(q.idOf, Interleaved(act, Task(c, LookingUp), env, 0, n))
  {
    if n > 0 {
      InterleavedVerifies(act, q, c, env, n - 1);
      var before := AfterTurns(act, Task(c, LookingUp), env, 0, n - 1);
      var now := Changed(before.cache, env(n - 1));
      assert act(before.phase, now) == ResolveAccess(q, before.phase, now);
      AccessPutsRight(q, before.phase, now);
      assert PutsVerify(q.idOf, env(n - 1));
    }
  }

  /** A resolve is the task's turns. After every one of them the cache is what the changes so
      far make of it: those of the others, all of them in their order, and in between the put
      of verified content and the deletes of the eviction. */
  lemma ResolveIsTurns(q: Query, c: Cache, env: Schedule) returns (n: nat)
    requires WalrusAnswer(q.idOf, q.id, q.walrus) && OthersVerify(q.idOf, env)
    ensures var r := Answer(q, c, env);
            AfterTurns(ResolveAccesses(q), Task(c, LookingUp), env, 0, n) == Task(r.cache, Finished(r.result))
    ensures forall k: nat :: k <= n ==>
              var changes := Interleaved(ResolveAccesses(q), Task(c, LookingUp), env, 0, k);
              && AfterTurns(ResolveAccesses(q), Task(c, LookingUp), env, 0, k).cache == Changed(c, changes)
              && PutsVerify(q.idOf, changes)
  {
    var act := ResolveAccesses(q);
    n := AnswerSteps(act, q, c, env);
    forall k: nat | k <= n
      ensures AfterTurns(act, Task(c, LookingUp), env, 0, k).cache ==
              Changed(c, Interleaved(act, Task(c, LookingUp), env, 0, k))
      ensures PutsVerify(q.idOf, Interleaved(act, Task(c, LookingUp), env, 0, k))
    {
      InterleavedIsRun(act, Task(c, LookingUp), env, 0, k);
      InterleavedVerifies(act, q, c, env, k);
    }
  }
}
