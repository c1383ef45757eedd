/** The supervisor object. Every public method is one uninterrupted stretch of code; its contract ties the
    new state to the transition system, so that every object is always in a reachable state. */
module Supervisor {
  import opened SupervisorAdmission
  import opened SupervisorModel
  import opened SupervisorInvariant
  import opened SupervisorLockSteps
  import opened SupervisorSteps
  import opened SupervisorTheorems
  import opened Wrappers

  datatype Rejection = SupervisorClosed | AbortError | ShardCircuitOpen | ShardOverloaded

  datatype Admission = Rejected(reason: Rejection) | Accepted(r: Req)

  /** Why an arrival is turned away, in the order of the checks. */
  function RefusalOf(o: Options, s: State, k: Key, aborted: bool, now: int): Option<Rejection>
    requires |s.shards| == o.shardCount
  {
    if !s.stage.Open? then Some(SupervisorClosed)
    else if aborted then Some(AbortError)
    else if Authorize(o, s.shards[ShardOf(o, k)], now).CircuitOpen? then Some(ShardCircuitOpen)
    else if s.shards[ShardOf(o, k)].admitted >= Capacity(o) then Some(ShardOverloaded)
    else None
  }

  /** The reasons in terms of the requests: the first check that fails names itself. */
  lemma RefusalIs(o: Options, s: State, k: Key, aborted: bool, now: int)
    requires Reachable(o, s) && Shaped(o, s)
    ensures var i, refusal := o.hash(k) % o.shardCount, RefusalOf(o, s, k, aborted, now);
            (refusal == Some(SupervisorClosed) <==> !s.stage.Open?) &&
            (refusal == Some(AbortError) <==> s.stage.Open? && aborted) &&
            (refusal == Some(ShardCircuitOpen) <==> s.stage.Open? && !aborted && !CircuitLetsIn(o, s, i, now)) &&
            (refusal == Some(ShardOverloaded) <==>
               s.stage.Open? && !aborted && CircuitLetsIn(o, s, i, now) && !HasRoom(o, s, i)) &&
            (refusal == None <==> s.stage.Open? && !aborted && CircuitLetsIn(o, s, i, now) && HasRoom(o, s, i))
  {
    ProbeFlagIs(o, s, ShardOf(o, k));
    hide Reachable, LiveProbe;
  }

  class AppServerSupervisor {
    const options: Options
    var shards: seq<Shard>
    var threadLocks: map<Key, Lock>
    var requests: seq<Request>
    var stage: Stage

    ghost function View(): State
      reads this
    {
      State(shards, threadLocks, requests, stage)
    }

    ghost predicate Valid()
      reads this
    {
      Reachable(options, View())
    }

    constructor (o: Options)
      ensures options == o && View() == Init(o) && Valid()
    {
      options := o;
      shards := seq(o.shardCount, _ => NewShard());
      threadLocks := map[];
      requests := [];
      stage := Open;
      new;
      assert View() == Init(o);
      assert Run(o, [Init(o)], []) && [Init(o)][|[Init(o)]| - 1] == View();
    }

    // ---------------------------------------------------------------- arrival

    method AuthorizeCircuit(i: nat, now: int) returns (a: Authorization)
      requires i < |shards|
      modifies `shards
      ensures a == Authorize(options, old(shards)[i], now)
      ensures a.CircuitClosed? <==> old(shards)[i].openedAt.None?
      ensures a.HalfOpen? <==> old(shards)[i].openedAt.Some? && !old(shards)[i].halfOpenProbe &&
                               now - old(shards)[i].openedAt.value >= options.cooldown
      ensures shards == if a.HalfOpen? then old(shards)[i := old(shards)[i].(halfOpenProbe := true)] else old(shards)
    {
      var shard := shards[i];
      if shard.openedAt.None? { return CircuitClosed; }
      if now - shard.openedAt.value < options.cooldown || shard.halfOpenProbe { return CircuitOpen; }
      shards := shards[i := shard.(halfOpenProbe := true)];
      return HalfOpen;
    }

    /** From the call to the first suspension: admission, and the attempt to lock the thread. */
    method Arrive(k: Key, signalAborted: bool, now: int) returns (admission: Admission)
      requires Valid()
      modifies this
      ensures Valid() && old(|shards|) == options.shardCount
      ensures View() == SupervisorModel.Arrive(options, old(View()), k, signalAborted, now)
      ensures admission ==
                match RefusalOf(options, old(View()), k, signalAborted, now)
                case Some(reason) => Rejected(reason)
                case None => Accepted(|old(requests)|)
      ensures var i := options.hash(k) % options.shardCount;
              admission == Accepted(|old(requests)|) <==>
                old(stage).Open? && !signalAborted && old(CircuitLetsIn(options, View(), i, now)) &&
                old(HasRoom(options, View(), i))
    {
      ReachableIsSafe(options, View());
      RefusalIs(options, View(), k, signalAborted, now);
      ReachableGoesOn(options, View(), StepArrive(k, signalAborted, now));
      assert Next(options, View(), StepArrive(k, signalAborted, now)) ==
        SupervisorModel.Arrive(options, View(), k, signalAborted, now);
      hide Inv, Reachable, Next, Enabled, CircuitLetsIn, HasRoom;
      if !stage.Open? { return Rejected(SupervisorClosed); }
      if signalAborted { return Rejected(AbortError); }
      var i := ShardOf(options, k);
      var authorization := AuthorizeCircuit(i, now);
      if authorization.CircuitOpen? { return Rejected(ShardCircuitOpen); }
      if shards[i].admitted >= Capacity(options) {
        if authorization.HalfOpen? {
          shards := shards[i := shards[i].(halfOpenProbe := false)];
        }
        assert shards == old(shards);
        return Rejected(ShardOverloaded);
      }
      shards := shards[i := shards[i].(admitted := shards[i].admitted + 1)];
      var r := EnterThreadLock(k, authorization.HalfOpen?);
      return Accepted(r);
    }

    /** Takes the lock of the thread, or a place at the end of its queue. */
    method EnterThreadLock(k: Key, probe: bool) returns (r: Req)
      modifies `threadLocks, `requests
      ensures r == |old(requests)|
      ensures var lock := LockFor(old(View()), k);
              threadLocks == old(threadLocks)
                [k := Lock(true, if lock.locked then lock.waiters + [r] else lock.waiters, lock.users + 1)]
              && requests == old(requests) +
                 [Request(k, probe, false, !lock.locked, if lock.locked then LockWaiting else LockGranted)]
    {
      if k !in threadLocks {
        threadLocks := threadLocks[k := Lock(false, [], 0)];
      }
      r := |requests|;
      var entry := threadLocks[k].(users := threadLocks[k].users + 1);
      if !entry.locked {
        entry := entry.(locked := true);
        requests := requests + [Request(k, probe, false, true, LockGranted)];
      } else {
        entry := entry.(waiters := entry.waiters + [r]);
        requests := requests + [Request(k, probe, false, false, LockWaiting)];
      }
      threadLocks := threadLocks[k := entry];
    }

    // ---------------------------------------------------------------- with the lock

    /** From the grant of the lock to the suspension in the permit queue, or to the end of the work. */
    method Resume(r: Req)
      requires Valid() && At(View(), r, LockGranted)
      modifies this
      ensures Valid() && old(|shards|) == options.shardCount
      ensures View() == SupervisorModel.Resume(options, old(View()), r)
    {
      ReachableIsSafe(options, View());
      ReachableGoesOn(options, View(), StepResume(r));
      hide Inv, Reachable;
      var i := ShardOf(options, requests[r].key);
      if !stage.Open? || (!requests[r].probe && shards[i].openedAt.Some?) {
        requests := Enter(requests, r, Unwinding);
      } else {
        AcquirePermit(i, r);
      }
    }

    method AcquirePermit(i: nat, r: Req)
      requires i < |shards| && At(View(), r, LockGranted)
      modifies `shards, `requests
      ensures |shards| == |old(shards)|
      ensures
        if !stage.Open? || old(requests)[r].aborted ||
           (old(shards)[i].inflight >= options.maxInflight && |old(shards)[i].waiters| + 1 > options.maxQueue)
        then shards == old(shards) && requests == Enter(old(requests), r, Unwinding)
        else if old(shards)[i].inflight < options.maxInflight
        then shards == old(shards)[i := old(shards)[i].(inflight := old(shards)[i].inflight + 1)] &&
             requests == Enter(old(requests), r, PermitGranted)
        else shards == old(shards)[i := old(shards)[i].(waiters := old(shards)[i].waiters + [r])] &&
             requests == Enter(old(requests), r, PermitWaiting)
    {
      if !stage.Open? || requests[r].aborted {
        requests := Enter(requests, r, Unwinding);
        return;
      }
      if shards[i].inflight < options.maxInflight {
        shards := shards[i := shards[i].(inflight := shards[i].inflight + 1)];
        requests := Enter(requests, r, PermitGranted);
        return;
      }
      var before := shards[i].waiters;
      shards := shards[i := shards[i].(waiters := before + [r])];
      if |shards[i].waiters| > options.maxQueue {
        var pushed := shards[i].waiters;
        assert pushed[..|pushed| - 1] == before;
        shards := shards[i := shards[i].(waiters := pushed[..|pushed| - 1])];
        assert shards == old(shards);
        requests := Enter(requests, r, Unwinding);
      } else {
        requests := Enter(requests, r, PermitWaiting);
      }
    }

    method EnsureBackend(i: nat, factoryThrows: bool)
      requires i < |shards|
      modifies `shards
      ensures var shard := old(shards)[i];
              shards == old(shards)[i := shard.(starting := shard.starting || (!shard.backend && !factoryThrows))]
    {
      if shards[i].backend { return; }
      if !shards[i].starting && !factoryThrows {
        shards := shards[i := shards[i].(starting := true)];
      }
    }

    /** From the grant of the permit to the suspension in the backend. */
    method Begin(r: Req, factoryThrows: bool)
      requires Valid() && At(View(), r, PermitGranted)
      modifies this
      ensures Valid() && old(|shards|) == options.shardCount
      ensures View() == SupervisorModel.Begin(options, old(View()), r, factoryThrows)
    {
      ReachableIsSafe(options, View());
      ReachableGoesOn(options, View(), StepBegin(r, factoryThrows));
      hide Inv, Reachable;
      EnsureBackend(ShardOf(options, requests[r].key), factoryThrows);
      requests := Enter(requests, r, Calling);
    }

    // ---------------------------------------------------------------- the call returns

    method RecordSuccess(i: nat)
      requires i < |shards|
      modifies `shards
      ensures shards == old(shards)[i := old(shards)[i].(consecutiveFailures := 0, openedAt := None)]
    {
      shards := shards[i := shards[i].(consecutiveFailures := 0)];
      shards := shards[i := shards[i].(openedAt := None)];
    }

    method RecordFailure(i: nat, now: int)
      requires |shards| == options.shardCount && i < |shards|
      modifies `shards, `requests
      ensures View() == Record(options, old(View()), i, HealthFailure, now)
    {
      shards := shards[i := shards[i].(consecutiveFailures := shards[i].consecutiveFailures + 1)];
      if shards[i].consecutiveFailures < options.failureThreshold { return; }
      shards := shards[i := shards[i].(openedAt := Some(now))];
      RejectWaiters(i);
    }

    /** Everybody in the permit queue of shard i is turned away. */
    method RejectWaiters(i: nat)
      requires i < |shards|
      modifies `shards, `requests
      ensures shards == old(shards)[i := old(shards)[i].(waiters := [])]
      ensures requests == EnterAll(old(requests), old(shards)[i].waiters, Unwinding)
    {
      var queue := shards[i].waiters;
      shards := shards[i := shards[i].(waiters := [])];
      for n := 0 to |queue|
        invariant shards == old(shards)[i := old(shards)[i].(waiters := [])]
        invariant requests == EnterAll(old(requests), queue[..n], Unwinding)
      {
        requests := Enter(requests, queue[n], Unwinding);
        assert queue[..n + 1] == queue[..n] + [queue[n]];
      }
      assert queue[..|queue|] == queue;
    }

    /** The permit goes to the first waiter whose signal has not fired, or back to the shard. */
    method ReleasePermit(i: nat)
      requires |shards| == options.shardCount && i < |shards|
      modifies `shards, `requests
      ensures View() == SupervisorModel.ReleasePermit(options, old(View()), i)
    {
      var shard := shards[i].(inflight := shards[i].inflight - 1);
      ghost var before := shards[i].waiters;
      while stage.Open? && |shard.waiters| > 0
        invariant shard == old(shards)[i].(inflight := old(shards)[i].inflight - 1, waiters := shard.waiters)
        invariant shards == old(shards) && requests == old(requests)
        invariant !stage.Open? ==> shard.waiters == before
        invariant SkipAborted(requests, shard.waiters) == SkipAborted(requests, before)
        decreases |shard.waiters|
      {
        var waiter := shard.waiters[0];
        shard := shard.(waiters := shard.waiters[1..]);
        if IsAborted(requests, waiter) { continue; }
        shard := shard.(inflight := shard.inflight + 1);
        requests := Enter(requests, waiter, PermitGranted);
        shards := shards[i := shard];
        assert SkipAborted(old(requests), before) == [waiter] + shard.waiters;
        return;
      }
      shards := shards[i := shard];
      assert stage.Open? ==> shard.waiters == [] == SkipAborted(requests, before);
    }

    /** The backend call ends: bookkeeping, then the permit. */
    method Settle(r: Req, outcome: Outcome, now: int)
      requires Valid() && Enabled(options, View(), StepSettle(r, outcome, now))
      modifies this
      ensures Valid() && View() == SupervisorModel.Settle(options, old(View()), r, outcome, now)
    {
      ReachableGoesOn(options, View(), StepSettle(r, outcome, now));
      hide Inv, Reachable;
      var i := ShardOf(options, requests[r].key);
      match outcome {
        case Success => RecordSuccess(i);
        case HealthFailure => RecordFailure(i, now);
        case OtherFailure =>
      }
      assert View() == Record(options, old(View()), i, outcome, now);
      ReleasePermit(i);
      requests := Enter(requests, r, Unwinding);
    }

    // ---------------------------------------------------------------- giving the lock back

    method ReleaseThreadLock(k: Key)
      requires k in threadLocks
      modifies `threadLocks, `requests
      ensures var (lock, reqs) := ReleaseLock(old(threadLocks)[k], old(requests));
              threadLocks == old(threadLocks)[k := lock] && requests == reqs
    {
      ghost var entry := threadLocks[k];
      while |threadLocks[k].waiters| > 0
        invariant k in threadLocks && requests == old(requests)
        invariant threadLocks == old(threadLocks)[k := entry.(waiters := threadLocks[k].waiters)]
        invariant SkipAborted(requests, threadLocks[k].waiters) == SkipAborted(requests, entry.waiters)
        decreases |threadLocks[k].waiters|
      {
        var waiter := threadLocks[k].waiters[0];
        threadLocks := threadLocks[k := threadLocks[k].(waiters := threadLocks[k].waiters[1..])];
        if IsAborted(requests, waiter) { continue; }
        if waiter < |requests| {
          requests := requests[waiter := requests[waiter].(phase := LockGranted, held := true)];
        }
        return;
      }
      threadLocks := threadLocks[k := threadLocks[k].(locked := false)];
    }

    /** Leaving the thread lock: hand it over if it was held, and drop the entry with its last user. */
    method Unwind(r: Req)
      requires Valid() && Enabled(options, View(), StepUnwind(r))
      modifies this
      ensures Valid() && View() == SupervisorModel.Unwind(old(View()), r)
    {
      ReachableGoesOn(options, View(), StepUnwind(r));
      hide Inv, Reachable;
      var k := requests[r].key;
      if requests[r].phase == Unwinding {
        ReleaseThreadLock(k);
      }
      threadLocks := threadLocks[k := threadLocks[k].(users := threadLocks[k].users - 1)];
      if threadLocks[k].users == 0 {
        threadLocks := threadLocks - {k};
      }
      requests := Enter(requests, r, Finishing);
    }

    method Idle() returns (idle: bool)
      ensures idle <==> AllIdle(shards)
    {
      for i := 0 to |shards|
        invariant forall n :: 0 <= n < i ==> shards[n].admitted == 0
      {
        if shards[i].admitted != 0 { return false; }
      }
      return true;
    }

    method NotifyDrainedIfNeeded()
      modifies `stage
      ensures stage == if old(stage).Draining? && AllIdle(shards) then DrainSettled(true) else old(stage)
    {
      var idle := Idle();
      if stage.Draining? && idle {
        stage := DrainSettled(true);
      }
    }

    /** The last bookkeeping of a request. */
    method Finish(r: Req)
      requires Valid() && At(View(), r, Finishing)
      modifies this
      ensures Valid() && old(|shards|) == options.shardCount
      ensures View() == SupervisorModel.Finish(options, old(View()), r)
    {
      ReachableIsSafe(options, View());
      ReachableGoesOn(options, View(), StepFinish(r));
      assert Next(options, View(), StepFinish(r)) == SupervisorModel.Finish(options, View(), r);
      hide Inv, Reachable, Next, Enabled, AllIdle;
      var i := ShardOf(options, requests[r].key);
      if requests[r].probe {
        shards := shards[i := shards[i].(halfOpenProbe := false)];
      }
      shards := shards[i := shards[i].(admitted := shards[i].admitted - 1)];
      requests := Enter(requests, r, Done);
      assert shards == SupervisorModel.Finish(options, old(View()), r).shards;
      NotifyDrainedIfNeeded();
    }

    // ---------------------------------------------------------------- abort

    method RemoveWaiter(queue: seq<Req>, r: Req) returns (rest: seq<Req>)
      ensures rest == Without(queue, r)
    {
      var n := 0;
      while n < |queue| && queue[n] != r
        invariant n <= |queue|
        invariant forall k :: 0 <= k < n ==> queue[k] != r
      {
        n := n + 1;
      }
      ghost var m := WithoutIs(queue, r);
      assert n == m;
      return if n < |queue| then queue[..n] + queue[n + 1..] else queue;
    }

    /** The signal of request r fires; a request in a queue leaves it at once. */
    method Abort(r: Req)
      requires Valid() && r < |requests|
      modifies this
      ensures Valid() && old(|shards|) == options.shardCount
      ensures View() == SupervisorModel.Abort(options, old(View()), r)
    {
      ReachableIsSafe(options, View());
      ReachableGoesOn(options, View(), StepAbort(r));
      hide Inv, Reachable;
      var request := requests[r].(aborted := true);
      var i := ShardOf(options, request.key);
      if request.phase == LockWaiting && request.key in threadLocks {
        var queue := RemoveWaiter(threadLocks[request.key].waiters, r);
        threadLocks := threadLocks[request.key := threadLocks[request.key].(waiters := queue)];
        requests := requests[r := request.(phase := LockRefused)];
      } else if request.phase == PermitWaiting {
        var queue := RemoveWaiter(shards[i].waiters, r);
        shards := shards[i := shards[i].(waiters := queue)];
        requests := requests[r := request.(phase := Unwinding)];
      } else {
        requests := requests[r := request];
      }
    }

    // ---------------------------------------------------------------- close

    /** Every permit queue is emptied. */
    method RejectAllWaiters()
      modifies `shards, `requests
      ensures shards == EmptyShardQueues(old(shards))
      ensures requests == Unwound(old(shards), old(requests), |old(shards)|)
    {
      for i := 0 to |shards|
        invariant |shards| == |old(shards)|
        invariant forall j :: 0 <= j < |shards| ==>
                    shards[j] == if j < i then old(shards)[j].(waiters := []) else old(shards)[j]
        invariant requests == Unwound(old(shards), old(requests), i)
      {
        RejectWaiters(i);
        UnwoundNext(old(shards), old(requests), i);
      }
    }

    method RejectThreadWaiters(k: Key)
      requires k in threadLocks
      modifies `threadLocks, `requests
      ensures threadLocks == old(threadLocks)[k := old(threadLocks)[k].(waiters := [])]
      ensures requests == EnterAll(old(requests), old(threadLocks)[k].waiters, LockRefused)
    {
      var queue := threadLocks[k].waiters;
      threadLocks := threadLocks[k := threadLocks[k].(waiters := [])];
      for n := 0 to |queue|
        invariant threadLocks == old(threadLocks)[k := old(threadLocks)[k].(waiters := [])]
        invariant requests == EnterAll(old(requests), queue[..n], LockRefused)
      {
        requests := Enter(requests, queue[n], LockRefused);
        assert queue[..n + 1] == queue[..n] + [queue[n]];
      }
      assert queue[..|queue|] == queue;
    }

    /** Every thread lock queue is emptied. */
    method RejectAllThreadWaiters()
      modifies `threadLocks, `requests
      ensures threadLocks == EmptyLockQueues(old(threadLocks))
      ensures requests == RefusedIn(old(threadLocks), old(requests), old(threadLocks).Keys)
    {
      hide RefusedIn, EnterAll;
      NothingRefused(threadLocks, requests);
      ghost var locks := threadLocks;
      var keys := threadLocks.Keys;
      assert locks.Keys - keys == {};
      while keys != {}
        invariant keys <= threadLocks.Keys == locks.Keys
        invariant forall k :: k in locks ==> threadLocks[k] == if k in keys then locks[k] else locks[k].(waiters := [])
        invariant requests == RefusedIn(locks, old(requests), locks.Keys - keys)
        decreases |keys|
      {
        var k :| k in keys;
        RejectThreadWaiters(k);
        RefusedInNext(locks, old(requests), locks.Keys - keys, k);
        assert locks.Keys - (keys - {k}) == locks.Keys - keys + {k};
        keys := keys - {k};
      }
      assert locks.Keys - keys == locks.Keys;
    }

    /** A backend that is there is shut down once; one that is still coming up will be. */
    method CloseShardBackend(i: nat)
      requires i < |shards|
      modifies `shards
      ensures shards == old(shards)[i := StopBackend(old(shards)[i])]
    {
      var shard := shards[i];
      if shard.shutdowns == 0 {
        if shard.backend {
          shard := shard.(shutdowns := 1);
        } else if shard.starting {
          shard := shard.(closeOnStart := true);
        }
      }
      shards := shards[i := shard];
    }

    method CloseBackends()
      modifies `shards
      ensures shards == StopBackends(old(shards))
    {
      for i := 0 to |shards|
        invariant |shards| == |old(shards)|
        invariant forall j :: 0 <= j < |shards| ==>
                    shards[j] == if j < i then StopBackend(old(shards)[j]) else old(shards)[j]
      {
        CloseShardBackend(i);
      }
    }

    /** The first call of close, up to the wait for live requests or to its end; later calls share its result. */
    method Close()
      requires Valid()
      modifies this
      ensures Valid() && View() == SupervisorModel.Close(old(View()))
    {
      ReachableIsSafe(options, View());
      ReachableGoesOn(options, View(), StepClose);
      if !stage.Open? { return; }
      QueuesAreTurnedAway(options, View());
      hide Inv, Reachable;
      stage := Draining;
      RejectAllWaiters();
      RejectAllThreadWaiters();
      var idle := Idle();
      if idle {
        CloseBackends();
        stage := Closed(false);
      }
    }

    method DrainTimeout()
      requires Valid() && stage.Draining?
      modifies `stage
      ensures Valid() && View() == SupervisorModel.DrainTimeout(old(View()))
    {
      ReachableIsSafe(options, View());
      ReachableGoesOn(options, View(), StepDrainTimeout);
      hide Inv, Reachable;
      stage := DrainSettled(false);
    }

    /** The wait is over, one way or the other. */
    method ResumeClose()
      requires Valid() && stage.DrainSettled?
      modifies this
      ensures Valid() && View() == SupervisorModel.ResumeClose(old(View()))
    {
      ReachableIsSafe(options, View());
      ReachableGoesOn(options, View(), StepResumeClose);
      hide Inv, Reachable;
      CloseBackends();
      stage := Closed(!stage.drained);
    }

    /** The start of a backend ends. */
    method Startup(i: nat, ok: bool)
      requires Valid() && i < |shards| && shards[i].starting
      modifies `shards
      ensures Valid() && View() == SupervisorModel.Startup(old(View()), i, ok)
    {
      ReachableIsSafe(options, View());
      ReachableGoesOn(options, View(), StepStartup(i, ok));
      hide Inv, Reachable;
      var shard := shards[i];
      if ok {
        shard := shard.(backend := true);
      }
      shards := shards[i := shard.(starting := false)];
      if ok && shard.closeOnStart {
        CloseShardBackend(i);
      }
    }
  }

  // ---------------------------------------------------------------- emptying the queues one by one

  ghost predicate InQueueUpTo(shards: seq<Shard>, n: nat, r: Req) {
    exists i :: 0 <= i < n && i < |shards| && r in shards[i].waiters
  }

  /** The requests once the first n permit queues have been turned away. */
  ghost function Unwound(shards: seq<Shard>, reqs: seq<Request>, n: nat): (out: seq<Request>)
    ensures |out| == |reqs|
  {
    seq(|reqs|, r requires 0 <= r < |reqs| =>
          if InQueueUpTo(shards, n, r) then reqs[r].(phase := Unwinding) else reqs[r])
  }

  lemma UnwoundNext(shards: seq<Shard>, reqs: seq<Request>, n: nat)
    requires n < |shards|
    ensures EnterAll(Unwound(shards, reqs, n), shards[n].waiters, Unwinding) == Unwound(shards, reqs, n + 1)
  {
    forall r: Req | r < |reqs|
      ensures InQueueUpTo(shards, n + 1, r) <==> InQueueUpTo(shards, n, r) || r in shards[n].waiters
    {
    }
  }

  ghost predicate InLockQueue(locks: map<Key, Lock>, keys: set<Key>, r: Req) {
    exists k :: k in keys && k in locks && r in locks[k].waiters
  }

  /** The requests once the queues of the locks in `keys` have been turned away. */
  ghost function RefusedIn(locks: map<Key, Lock>, reqs: seq<Request>, keys: set<Key>): (out: seq<Request>)
    ensures |out| == |reqs|
  {
    seq(|reqs|, r requires 0 <= r < |reqs| =>
          if InLockQueue(locks, keys, r) then reqs[r].(phase := LockRefused) else reqs[r])
  }

  lemma NothingRefused(locks: map<Key, Lock>, reqs: seq<Request>)
    ensures RefusedIn(locks, reqs, {}) == reqs
  {}

  lemma RefusedInNext(locks: map<Key, Lock>, reqs: seq<Request>, keys: set<Key>, k: Key)
    requires k in locks
    ensures EnterAll(RefusedIn(locks, reqs, keys), locks[k].waiters, LockRefused) == RefusedIn(locks, reqs, keys + {k})
  {
    forall r: Req | r < |reqs|
      ensures InLockQueue(locks, keys + {k}, r) <==> InLockQueue(locks, keys, r) || r in locks[k].waiters
    {
    }
  }

  /** Emptying all queues, one after the other, turns every queued request away in the way its phase says. */
  lemma QueuesAreTurnedAway(o: Options, s: State)
    requires Inv(o, s)
    ensures RefusedIn(s.locks, Unwound(s.shards, s.requests, |s.shards|), s.locks.Keys) == TurnAway(s)
  {
    forall r: Req | r < |s.requests|
      ensures InQueueUpTo(s.shards, |s.shards|, r) ==> s.requests[r].phase == PermitWaiting
      ensures InLockQueue(s.locks, s.locks.Keys, r) ==> s.requests[r].phase == LockWaiting
      ensures Queued(s, r) <==> InQueueUpTo(s.shards, |s.shards|, r) || InLockQueue(s.locks, s.locks.Keys, r)
    {
      WhereQueued(o, s, r);
    }
  }

  lemma WhereQueued(o: Options, s: State, r: Req)
    requires Inv(o, s) && r < |s.requests|
    ensures InQueueUpTo(s.shards, |s.shards|, r) ==> s.requests[r].phase == PermitWaiting
    ensures InLockQueue(s.locks, s.locks.Keys, r) ==> s.requests[r].phase == LockWaiting
    ensures Queued(s, r) <==> InQueueUpTo(s.shards, |s.shards|, r) || InLockQueue(s.locks, s.locks.Keys, r)
  {
    hide Sum;
    if InQueueUpTo(s.shards, |s.shards|, r) {
      var i :| 0 <= i < |s.shards| && r in s.shards[i].waiters;
      assert ShardOk(o, s, i);
    }
    if InLockQueue(s.locks, s.locks.Keys, r) {
      var k :| k in s.locks && r in s.locks[k].waiters;
      assert LockOk(o, s, k);
    }
  }
}
