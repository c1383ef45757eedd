/** What the supervisor guarantees in every run: bounds, circuit, locks, progress and shutdown. */
module SupervisorTheorems {
  import opened SupervisorModel
  import opened SupervisorInvariant
  import opened SupervisorSteps
  import opened SupervisorLockSteps
  import opened Wrappers

  // ---------------------------------------------------------------- every reachable state

  lemma NextKeeps(o: Options, s: State, step: Step)
    requires Inv(o, s) && Enabled(o, s, step)
    ensures Inv(o, Next(o, s, step))
  {
    hide Inv;
    match step
    case StepArrive(k, aborted, now) => ArriveKeeps(o, s, k, aborted, now);
    case StepResume(r) => ResumeKeeps(o, s, r);
    case StepBegin(r, factoryThrows) => BeginKeeps(o, s, r, factoryThrows);
    case StepSettle(r, outcome, now) => SettleKeeps(o, s, r, outcome, now);
    case StepUnwind(r) => UnwindKeeps(o, s, r);
    case StepFinish(r) => FinishKeeps(o, s, r);
    case StepAbort(r) => AbortKeeps(o, s, r);
    case StepStartup(i, ok) => StartupKeeps(o, s, i, ok);
    case StepClose => CloseKeeps(o, s);
    case StepDrainTimeout => DrainTimeoutKeeps(o, s);
    case StepResumeClose => ResumeCloseKeeps(o, s);
  }

  /** The invariant holds in every state of every run, whatever the interleaving. */
  lemma {:induction false} RunIsSafe(o: Options, states: seq<State>, steps: seq<Step>, n: nat)
    requires Run(o, states, steps) && n < |states|
    ensures Inv(o, states[n])
    decreases n
  {
    hide Inv, Next, Enabled;
    if n == 0 {
      InitOk(o);
    } else {
      RunIsSafe(o, states, steps, n - 1);
      NextKeeps(o, states[n - 1], steps[n - 1]);
    }
  }

  ghost predicate Reachable(o: Options, s: State) {
    exists states, steps :: Run(o, states, steps) && states[|states| - 1] == s
  }

  lemma ReachableIsSafe(o: Options, s: State)
    requires Reachable(o, s)
    ensures Inv(o, s)
  {
    hide Inv, Next, Enabled;
    var states, steps :| Run(o, states, steps) && states[|states| - 1] == s;
    RunIsSafe(o, states, steps, |states| - 1);
  }

  lemma ReachableGoesOn(o: Options, s: State, step: Step)
    requires Reachable(o, s) && Enabled(o, s, step)
    ensures Reachable(o, Next(o, s, step))
  {
    hide Next, Enabled;
    var states, steps :| Run(o, states, steps) && states[|states| - 1] == s;
    var longer, more := states + [Next(o, s, step)], steps + [step];
    forall n | 0 <= n < |more|
      ensures Enabled(o, longer[n], more[n]) && longer[n + 1] == Next(o, longer[n], more[n])
    {
      if n < |steps| {
        assert longer[n] == states[n] && longer[n + 1] == states[n + 1] && more[n] == steps[n];
      }
    }
    assert Run(o, longer, more) && longer[|longer| - 1] == Next(o, s, step);
  }

  // ---------------------------------------------------------------- bounds

  /** The admission bounds of a shard, and that nobody queues while a permit is free. */
  lemma ShardBounds(o: Options, s: State, i: nat)
    requires Reachable(o, s) && Shaped(o, s) && i < o.shardCount
    ensures var sh := s.shards[i];
            0 <= sh.inflight <= o.maxInflight && sh.admitted <= Capacity(o) &&
            sh.inflight + |sh.waiters| <= sh.admitted && |sh.waiters| <= o.maxQueue &&
            (sh.waiters != [] ==> sh.inflight == o.maxInflight)
  {
    ReachableIsSafe(o, s);
    assert ShardOk(o, s, i);
    SumsAreDisjoint(o, i, s.requests);
  }

  /** No request in a queue has been aborted, so the skipping branches of both release loops are dead;
      and the queue-full branch of the permit queue is dead as well. */
  lemma DeadBranches(o: Options, s: State)
    requires Reachable(o, s) && Shaped(o, s)
    ensures forall i :: 0 <= i < o.shardCount ==> SkipAborted(s.requests, s.shards[i].waiters) == s.shards[i].waiters
    ensures forall k :: k in s.locks ==> SkipAborted(s.requests, s.locks[k].waiters) == s.locks[k].waiters
    ensures forall r: Req :: At(s, r, LockGranted) ==>
              s.shards[ShardOf(o, s.requests[r].key)].inflight >= o.maxInflight ==>
              |s.shards[ShardOf(o, s.requests[r].key)].waiters| + 1 <= o.maxQueue
  {
    ReachableIsSafe(o, s);
    hide ShardOk, LockOk, FifoOk, HeldOk, StageOk;
    forall i | 0 <= i < o.shardCount
      ensures SkipAborted(s.requests, s.shards[i].waiters) == s.shards[i].waiters
    {
      NoneAborted(o, s, i);
    }
    forall k | k in s.locks
      ensures SkipAborted(s.requests, s.locks[k].waiters) == s.locks[k].waiters
    {
      NoneAbortedInLock(o, s, k);
    }
    forall r: Req | At(s, r, LockGranted)
      ensures var sh := s.shards[ShardOf(o, s.requests[r].key)];
              sh.inflight >= o.maxInflight ==> |sh.waiters| + 1 <= o.maxQueue
    {
      QueueNeverOverflows(o, s, r);
    }
  }

  function LiveKeys(reqs: seq<Request>): set<Key> {
    if reqs == [] then {}
    else LiveKeys(reqs[..|reqs| - 1]) + (if reqs[|reqs| - 1].phase != Done then {reqs[|reqs| - 1].key} else {})
  }

  function Live(reqs: seq<Request>): nat {
    if reqs == [] then 0 else Live(reqs[..|reqs| - 1]) + if reqs[|reqs| - 1].phase != Done then 1 else 0
  }

  lemma {:induction false} LiveKeysBound(reqs: seq<Request>)
    ensures |LiveKeys(reqs)| <= Live(reqs)
    ensures forall r :: 0 <= r < |reqs| && reqs[r].phase != Done ==> reqs[r].key in LiveKeys(reqs)
  {
    if reqs != [] {
      LiveKeysBound(reqs[..|reqs| - 1]);
    }
  }

  /** Admitted requests of the first n shards. */
  function AdmittedUpTo(o: Options, n: nat, reqs: seq<Request>): nat {
    if n == 0 then 0 else AdmittedUpTo(o, n - 1, reqs) + Sum(o, Admitted(n - 1), reqs)
  }

  lemma {:induction false} AdmittedStep(o: Options, n: nat, reqs: seq<Request>)
    requires reqs != []
    ensures AdmittedUpTo(o, n, reqs) == AdmittedUpTo(o, n, reqs[..|reqs| - 1]) +
              if reqs[|reqs| - 1].phase != Done && ShardOf(o, reqs[|reqs| - 1].key) < n then 1 else 0
  {
    if n > 0 {
      AdmittedStep(o, n - 1, reqs);
    }
  }

  lemma {:induction false} NothingAdmitted(o: Options, n: nat)
    ensures AdmittedUpTo(o, n, []) == 0
  {
    if n > 0 {
      NothingAdmitted(o, n - 1);
    }
  }

  lemma {:induction false} LiveIsAdmitted(o: Options, reqs: seq<Request>)
    ensures Live(reqs) == AdmittedUpTo(o, o.shardCount, reqs)
  {
    if reqs == [] {
      NothingAdmitted(o, o.shardCount);
    } else {
      LiveIsAdmitted(o, reqs[..|reqs| - 1]);
      AdmittedStep(o, o.shardCount, reqs);
    }
  }

  lemma {:induction false} AdmittedAtMostCapacity(o: Options, s: State, n: nat)
    requires ShardsOk(o, s) && n <= o.shardCount
    ensures AdmittedUpTo(o, n, s.requests) <= n * Capacity(o)
  {
    if n > 0 {
      AdmittedAtMostCapacity(o, s, n - 1);
      assert ShardOk(o, s, n - 1);
      assert n * Capacity(o) == (n - 1) * Capacity(o) + Capacity(o);
    }
  }

  /** Memory is bounded: live requests and lock entries never exceed shards times capacity. */
  lemma LockTableBound(o: Options, s: State)
    requires Reachable(o, s)
    ensures |s.locks| <= Live(s.requests) <= o.shardCount * Capacity(o)
  {
    ReachableIsSafe(o, s);
    LiveKeysBound(s.requests);
    LiveIsAdmitted(o, s.requests);
    AdmittedAtMostCapacity(o, s, o.shardCount);
    hide Sum;
    forall k | k in s.locks
      ensures k in LiveKeys(s.requests)
    {
      assert LockOk(o, s, k);
      var r := SumFinds(o, Users(k), s.requests);
    }
    SubsetSize(s.locks.Keys, LiveKeys(s.requests));
  }

  lemma SubsetSize<T>(a: set<T>, b: set<T>)
    requires a <= b
    ensures |a| <= |b|
  {
    var rest := b - a;
    assert b == a + rest;
  }

  // ---------------------------------------------------------------- mutual exclusion and order

  predicate Both(o: Options, t: Tally, s: State, a: Req, b: Req)
    requires a < |s.requests| && b < |s.requests|
  {
    Counted(o, t, s.requests[a]) && Counted(o, t, s.requests[b])
  }

  /** A lock entry exists exactly while someone uses it, and at most one request owns it. */
  lemma LockIsExclusive(o: Options, s: State, k: Key)
    requires Reachable(o, s)
    ensures k in s.locks <==> exists r :: 0 <= r < |s.requests| && Counted(o, Users(k), s.requests[r])
    ensures forall a, b :: 0 <= a < |s.requests| && 0 <= b < |s.requests| && Both(o, Owners(k), s, a, b) ==> a == b
  {
    ReachableIsSafe(o, s);
    assert LockOk(o, s, k);
    if k in s.locks {
      var r := SumFinds(o, Users(k), s.requests);
    }
    if exists r :: 0 <= r < |s.requests| && Counted(o, Users(k), s.requests[r]) {
      var r :| 0 <= r < |s.requests| && Counted(o, Users(k), s.requests[r]);
      SumIncludes(o, Users(k), s.requests, r);
    }
    forall a, b | 0 <= a < |s.requests| && 0 <= b < |s.requests| && Both(o, Owners(k), s, a, b)
      ensures a == b
    {
      SumIncludes(o, Owners(k), s.requests, a);
    }
  }

  /** When a later request of a thread has been given the lock, no earlier one is still waiting for it. */
  lemma LockIsFair(o: Options, s: State, earlier: Req, later: Req)
    requires Reachable(o, s) && earlier < later < |s.requests|
    requires s.requests[earlier].key == s.requests[later].key && s.requests[later].held
    ensures s.requests[earlier].phase != LockWaiting
  {
    ReachableIsSafe(o, s);
    assert !MustPrecede(s.requests[later], s.requests[earlier]);
  }

  // ---------------------------------------------------------------- circuit

  lemma TwoDiffer(queue: seq<Req>)
    requires Distinct(queue) && |queue| > 1
    ensures exists a, b :: a in queue && b in queue && a != b
  {
    assert queue[0] in queue && queue[1] in queue;
  }

  /** The circuit is open exactly from the threshold on, the half-open flag stands for exactly one live
      probe, and while the circuit is open nothing but that probe waits for a permit. */
  lemma CircuitIsConsistent(o: Options, s: State, i: nat)
    requires Reachable(o, s) && Shaped(o, s) && i < o.shardCount
    ensures s.shards[i].openedAt.Some? <==> s.shards[i].consecutiveFailures >= o.failureThreshold
    ensures s.shards[i].halfOpenProbe <==> exists r :: 0 <= r < |s.requests| && Counted(o, Probes(i), s.requests[r])
    ensures forall a, b :: 0 <= a < |s.requests| && 0 <= b < |s.requests| && Both(o, Probes(i), s, a, b) ==> a == b
    ensures s.shards[i].openedAt.Some? ==>
              |s.shards[i].waiters| <= 1 &&
              forall r: Req :: r in s.shards[i].waiters ==> r < |s.requests| && Counted(o, Probes(i), s.requests[r])
  {
    ReachableIsSafe(o, s);
    assert ShardOk(o, s, i);
    hide Sum;
    if s.shards[i].halfOpenProbe {
      var r := SumFinds(o, Probes(i), s.requests);
    }
    forall a | 0 <= a < |s.requests| && Counted(o, Probes(i), s.requests[a])
      ensures s.shards[i].halfOpenProbe
      ensures forall b :: 0 <= b < |s.requests| && Counted(o, Probes(i), s.requests[b]) ==> a == b
    {
      SumIncludes(o, Probes(i), s.requests, a);
    }
    if s.shards[i].openedAt.Some? {
      var queue := s.shards[i].waiters;
      forall r: Req | r in queue
        ensures r < |s.requests| && Counted(o, Probes(i), s.requests[r])
      {
      }
      if |queue| > 1 {
        TwoDiffer(queue);
      }
    }
  }
}
