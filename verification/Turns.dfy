/** A task that takes turns at a cache with others: they change it, it looks at it, changes it
    itself, and goes on. */
module Turns {
  import opened BlobStores

  /** What a task does to the cache at one turn, and how it goes on. */
  datatype Acted<+P> = Acted(own: seq<Change>, next: P)

  datatype Task<+P> = Task(cache: Cache, phase: P)

  /** The task after one turn, with what others did before it. */
  function OneTurn<P>(act: (P, Cache) -> Acted<P>, task: Task<P>, changes: seq<Change>): Task<P> {
    var now := Changed(task.cache, changes);
    var acted := act(task.phase, now);
    Task(Changed(now, acted.own), acted.next)
  }

  function AfterTurns<P>(act: (P, Cache) -> Acted<P>, task: Task<P>, env: Schedule, t: nat, n: nat): Task<P> {
    if n == 0 then task else OneTurn(act, AfterTurns(act, task, env, t, n - 1), env(t + n - 1))
  }

  /** All the changes of the first n turns: at each turn those of the others, all of them and
      in their order, and then the task's own. */
  function Interleaved<P>(act: (P, Cache) -> Acted<P>, task: Task<P>, env: Schedule, t: nat, n: nat): seq<Change> {
    if n == 0 then []
    else
      var before := AfterTurns(act, task, env, t, n - 1);
      var others := env(t + n - 1);
      Interleaved(act, task, env, t, n - 1) + (others + act(before.phase, Changed(before.cache, others)).own)
  }

  lemma {:induction false} MoreTurns<P>(act: (P, Cache) -> Acted<P>, task: Task<P>, env: Schedule, t: nat,
                                        a: nat, b: nat)
    ensures AfterTurns(act, AfterTurns(act, task, env, t, a), env, t + a, b) == AfterTurns(act, task, env, t, a + b)
  {
    if b > 0 { MoreTurns(act, task, env, t, a, b - 1); }
  }

  /** In n turns, the first of them turn t, the task gets from one state to another. */
  predicate Reaches<P(==)>(act: (P, Cache) -> Acted<P>, from: Task<P>, env: Schedule, t: nat, n: nat, to: Task<P>) {
    AfterTurns(act, from, env, t, n) == to
  }

  lemma ReachesItself<P>(act: (P, Cache) -> Acted<P>, task: Task<P>, env: Schedule, t: nat)
    ensures Reaches(act, task, env, t, 0, task)
  {
  }

  lemma ReachesNext<P>(act: (P, Cache) -> Acted<P>, task: Task<P>, env: Schedule, t: nat)
    ensures Reaches(act, task, env, t, 1, OneTurn(act, task, env(t)))
  {
    assert AfterTurns(act, task, env, t, 0) == task;
  }

  lemma ReachesThen<P>(act: (P, Cache) -> Acted<P>, from: Task<P>, env: Schedule, t: nat,
                       a: nat, mid: Task<P>, b: nat, to: Task<P>)
    requires Reaches(act, from, env, t, a, mid) && Reaches(act, mid, env, t + a, b, to)
    ensures Reaches(act, from, env, t, a + b, to)
  {
    MoreTurns(act, from, env, t, a, b);
  }

  /** After every turn the cache is what the interleaved changes so far make of it. */
  lemma {:induction false} InterleavedIsRun<P>(act: (P, Cache) -> Acted<P>, task: Task<P>, env: Schedule, t: nat,
                                               n: nat)
    ensures AfterTurns(act, task, env, t, n).cache == Changed(task.cache, Interleaved(act, task, env, t, n))
  {
    if n > 0 {
      InterleavedIsRun(act, task, env, t, n - 1);
      var before := AfterTurns(act, task, env, t, n - 1);
      var others := env(t + n - 1);
      var own := act(before.phase, Changed(before.cache, others)).own;
      ChangedAppend(before.cache, others, own);
      ChangedAppend(task.cache, Interleaved(act, task, env, t, n - 1), others + own);
    }
  }
}
