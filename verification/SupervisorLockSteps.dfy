/** The steps around the thread lock, admission, abort and close keep the invariant too. */
module SupervisorLockSteps {
  import opened SupervisorModel
  import opened SupervisorInvariant
  import opened SupervisorSteps
  import opened Wrappers

  // ---------------------------------------------------------------- unwinding

  lemma LockSumsUpdate(o: Options, k: Key, reqs: seq<Request>, r: Req, q: Request)
    requires r < |reqs|
    ensures Sum(o, Users(k), reqs[r := q]) == Sum(o, Users(k), reqs) - One(o, Users(k), reqs[r]) + One(o, Users(k), q)
    ensures Sum(o, Owners(k), reqs[r := q]) ==
            Sum(o, Owners(k), reqs) - One(o, Owners(k), reqs[r]) + One(o, Owners(k), q)
  {
    SumUpdate(o, Users(k), reqs, r, q);
    SumUpdate(o, Owners(k), reqs, r, q);
  }

  /** Someone who uses a lock is in its entry's count, and an owner keeps it locked. */
  lemma UserHasEntry(o: Options, s: State, r: Req)
    requires LocksOk(o, s) && r < |s.requests| && UsesLock(s.requests[r].phase)
    ensures s.requests[r].key in s.locks
    ensures OwnsLock(s.requests[r].phase) ==> s.locks[s.requests[r].key].locked
  {
    var k := s.requests[r].key;
    assert LockOk(o, s, k);
    SumIncludes(o, Users(k), s.requests, r);
    if OwnsLock(s.requests[r].phase) {
      SumIncludes(o, Owners(k), s.requests, r);
    }
  }

  lemma NoUsersNoOwners(o: Options, k: Key, reqs: seq<Request>)
    requires Sum(o, Users(k), reqs) == 0
    ensures Sum(o, Owners(k), reqs) == 0
    ensures forall r :: 0 <= r < |reqs| ==> !Counted(o, Users(k), reqs[r])
  {
    forall r | 0 <= r < |reqs|
      ensures !Counted(o, Users(k), reqs[r]) && !Counted(o, Owners(k), reqs[r])
    {
      if Counted(o, Users(k), reqs[r]) {
        SumIncludes(o, Users(k), reqs, r);
      }
    }
    SumNone(o, Owners(k), reqs);
  }

  /** What the lock entry looks like once it has one user less; `mid` is the state before that count falls. */
  ghost predicate LeavesLock(o: Options, s: State, t: State, k: Key, lock: Lock) {
    k in s.locks && t.locks == Leave(s.locks, k, lock) && lock.users == s.locks[k].users &&
    Sum(o, Users(k), t.requests) == Sum(o, Users(k), s.requests) - 1 &&
    Sum(o, Owners(k), t.requests) == (if lock.locked then 1 else 0) &&
    Sorted(lock.waiters) && (lock.waiters != [] ==> lock.locked) &&
    forall r: Req :: r in lock.waiters <==>
      r < |t.requests| && t.requests[r].key == k && t.requests[r].phase == LockWaiting
  }

  lemma LeavingKeepsLock(o: Options, s: State, t: State, k: Key, lock: Lock)
    requires LockOk(o, s, k) && LeavesLock(o, s, t, k, lock)
    ensures LockOk(o, t, k)
  {
    if lock.users - 1 == 0 {
      NoUsersNoOwners(o, k, t.requests);
      forall r: Req
        ensures !(r < |t.requests| && t.requests[r].key == k && t.requests[r].phase == LockWaiting)
      {
        if r < |t.requests| {
          assert !Counted(o, Users(k), t.requests[r]);
        }
      }
    }
  }

  lemma NoneAbortedInLock(o: Options, s: State, k: Key)
    requires LocksOk(o, s) && WaitersOk(s) && k in s.locks
    ensures SkipAborted(s.requests, s.locks[k].waiters) == s.locks[k].waiters
    ensures forall r :: r in s.locks[k].waiters ==> At(s, r, LockWaiting) && s.requests[r].key == k
    ensures s.locks[k].waiters == [] || s.stage.Open?
  {
    assert LockOk(o, s, k) && LockQueueOk(s, k);
    forall r | r in s.locks[k].waiters
      ensures !IsAborted(s.requests, r) && At(s, r, LockWaiting) && s.requests[r].key == k && s.stage.Open?
    {
    }
    assert s.locks[k].waiters == [] || s.locks[k].waiters[0] in s.locks[k].waiters;
    NothingToSkip(s.requests, s.locks[k].waiters);
  }

  lemma RefusedLeaves(o: Options, s: State, r: Req)
    requires LocksOk(o, s) && At(s, r, LockRefused) && s.requests[r].key in s.locks
    ensures LockOk(o, Unwind(s, r), s.requests[r].key)
  {
    var t := Unwind(s, r);
    var k := s.requests[r].key;
    assert LockOk(o, s, k) && LockQueueOk(s, k);
    LockSumsUpdate(o, k, s.requests, r, t.requests[r]);
    hide Sum;
    LeavingKeepsLock(o, s, t, k, s.locks[k]);
  }

  lemma OwnerGone(o: Options, k: Key, reqs: seq<Request>, r: Req)
    requires r < |reqs| && reqs[r].phase == Unwinding && reqs[r].key == k
    ensures var after := reqs[r := reqs[r].(phase := Finishing)];
            Sum(o, Users(k), after) == Sum(o, Users(k), reqs) - 1 &&
            Sum(o, Owners(k), after) == Sum(o, Owners(k), reqs) - 1
  {
    hide Sum;
    LockSumsUpdate(o, k, reqs, r, reqs[r].(phase := Finishing));
  }

  lemma OwnerGained(o: Options, k: Key, reqs: seq<Request>, w: Req)
    requires w < |reqs| && reqs[w].phase == LockWaiting && reqs[w].key == k
    ensures var after := reqs[w := reqs[w].(phase := LockGranted, held := true)];
            Sum(o, Users(k), after) == Sum(o, Users(k), reqs) && Sum(o, Owners(k), after) == Sum(o, Owners(k), reqs) + 1
  {
    hide Sum;
    LockSumsUpdate(o, k, reqs, w, reqs[w].(phase := LockGranted, held := true));
  }

  lemma LastOwnerLeaves(o: Options, s: State, r: Req)
    requires LocksOk(o, s) && WaitersOk(s) && At(s, r, Unwinding) && s.requests[r].key in s.locks
    requires s.locks[s.requests[r].key].waiters == []
    ensures LockOk(o, Unwind(s, r), s.requests[r].key)
  {
    var t := Unwind(s, r);
    var k := s.requests[r].key;
    UserHasEntry(o, s, r);
    NoneAbortedInLock(o, s, k);
    assert LockOk(o, s, k) && LockQueueOk(s, k);
    OwnerGone(o, k, s.requests, r);
    LeavingKeepsLock(o, s, t, k, s.locks[k].(locked := false, waiters := []));
  }

  lemma UnwindPasses(o: Options, s: State, r: Req)
    requires LocksOk(o, s) && WaitersOk(s) && At(s, r, Unwinding) && s.requests[r].key in s.locks
    requires s.locks[s.requests[r].key].waiters != []
    ensures var k := s.requests[r].key; var queue := s.locks[k].waiters; var w := queue[0];
            At(s, w, LockWaiting) && s.requests[w].key == k &&
            Unwind(s, r).locks == Leave(s.locks, k, s.locks[k].(waiters := queue[1..])) &&
            Unwind(s, r).requests ==
              s.requests
                [w := s.requests[w].(phase := LockGranted, held := true)]
                [r := s.requests[r].(phase := Finishing)]
  {
    NoneAbortedInLock(o, s, s.requests[r].key);
    assert s.locks[s.requests[r].key].waiters[0] in s.locks[s.requests[r].key].waiters;
  }

  lemma OwnerPassesLock(o: Options, s: State, r: Req)
    requires LocksOk(o, s) && WaitersOk(s) && At(s, r, Unwinding) && s.requests[r].key in s.locks
    requires s.locks[s.requests[r].key].waiters != []
    ensures LockOk(o, Unwind(s, r), s.requests[r].key)
  {
    hide Unwind, Sum, Leave;
    var t := Unwind(s, r);
    var k := s.requests[r].key;
    var queue := s.locks[k].waiters;
    UserHasEntry(o, s, r);
    UnwindPasses(o, s, r);
    assert LockOk(o, s, k) && LockQueueOk(s, k);
    var w := queue[0];
    OwnerGained(o, k, s.requests, w);
    OwnerGone(o, k, s.requests[w := s.requests[w].(phase := LockGranted, held := true)], r);
    RestOfLockQueue(o, s, t, k, r);
    LeavingKeepsLock(o, s, t, k, s.locks[k].(waiters := queue[1..]));
  }

  lemma RestOfLockQueue(o: Options, s: State, t: State, k: Key, r: Req)
    requires LockOk(o, s, k) && k in s.locks && s.locks[k].waiters != [] && At(s, r, Unwinding)
    requires At(s, s.locks[k].waiters[0], LockWaiting) && t.requests == s.requests
               [s.locks[k].waiters[0] := s.requests[s.locks[k].waiters[0]].(phase := LockGranted, held := true)]
               [r := s.requests[r].(phase := Finishing)]
    ensures Sorted(s.locks[k].waiters[1..])
    ensures forall x: Req :: x in s.locks[k].waiters[1..] <==>
              x < |t.requests| && t.requests[x].key == k && t.requests[x].phase == LockWaiting
  {
    var queue := s.locks[k].waiters;
    assert LockQueueOk(s, k);
    assert queue == [queue[0]] + queue[1..];
    assert queue[0] !in queue[1..];
    forall x: Req
      ensures x in queue[1..] <==> x < |t.requests| && t.requests[x].key == k && t.requests[x].phase == LockWaiting
    {
      assert x in queue <==> x < |s.requests| && s.requests[x].key == k && s.requests[x].phase == LockWaiting;
    }
  }

  lemma UnwindKeepsLocks(o: Options, s: State, r: Req)
    requires LocksOk(o, s) && WaitersOk(s) && (At(s, r, Unwinding) || At(s, r, LockRefused))
    ensures s.requests[r].key in s.locks && LocksOk(o, Unwind(s, r))
  {
    hide LockOk;
    UserHasEntry(o, s, r);
    var t := Unwind(s, r);
    var k := s.requests[r].key;
    NoneAbortedInLock(o, s, k);
    if s.requests[r].phase == LockRefused {
      RefusedLeaves(o, s, r);
    } else if s.locks[k].waiters == [] {
      LastOwnerLeaves(o, s, r);
    } else {
      OwnerPassesLock(o, s, r);
    }
    OtherLocksKept(o, s, t, k);
  }

  /** What Unwind does to single requests. */
  lemma UnwindMoves(o: Options, s: State, r: Req, x: Req)
    requires LocksOk(o, s) && WaitersOk(s) && (At(s, r, Unwinding) || At(s, r, LockRefused)) && x < |s.requests|
    requires s.requests[r].key in s.locks
    ensures var q, u := s.requests[x], Unwind(s, r).requests[x];
            if x == r then u == q.(phase := Finishing)
            else u == q ||
                 (q.phase == LockWaiting && u == q.(phase := LockGranted, held := true) &&
                  s.requests[r].phase == Unwinding &&
                            q.key == s.requests[r].key && s.locks[q.key].waiters != [] &&
                            s.locks[q.key].waiters[0] == x)
  {
    NoneAbortedInLock(o, s, s.requests[r].key);
  }

  lemma UnwindKeeps(o: Options, s: State, r: Req)
    requires Inv(o, s) && (At(s, r, Unwinding) || At(s, r, LockRefused))
    ensures s.requests[r].key in s.locks && Inv(o, Unwind(s, r))
  {
    hide ShardOk, LockOk, Unwind;
    UnwindKeepsLocks(o, s, r);
    var t := Unwind(s, r);
    UnwindFrame(s, r);
    forall x | 0 <= x < |s.requests|
      ensures ShardView(s.requests[x]) == ShardView(t.requests[x])
      ensures IsWaiting(t.requests[x].phase) ==> t.requests[x] == s.requests[x]
      ensures OwnsLock(t.requests[x].phase) ==> t.requests[x].held
    {
      UnwindMoves(o, s, r, x);
    }
    AllShardsKept(o, s, t);
    UnwindKeepsFifo(o, s, r);
    SameIdle(s, t);
    StageKept(s, t);
  }

  lemma UnwindFrame(s: State, r: Req)
    requires (At(s, r, Unwinding) || At(s, r, LockRefused)) && s.requests[r].key in s.locks
    ensures Unwind(s, r).shards == s.shards && Unwind(s, r).stage == s.stage && |Unwind(s, r).requests| == |s.requests|
  {}

  /** The lock goes to the earliest request that waits for it. */
  lemma UnwindKeepsFifo(o: Options, s: State, r: Req)
    requires LocksOk(o, s) && WaitersOk(s) && FifoOk(s) && (At(s, r, Unwinding) || At(s, r, LockRefused))
    requires s.requests[r].key in s.locks && |Unwind(s, r).requests| == |s.requests|
    ensures FifoOk(Unwind(s, r))
  {
    hide Unwind;
    var t := Unwind(s, r);
    var k := s.requests[r].key;
    forall a, b | 0 <= a < |t.requests| && 0 <= b < |t.requests| && MustPrecede(t.requests[a], t.requests[b])
      ensures a < b
    {
      UnwindMoves(o, s, r, a);
      UnwindMoves(o, s, r, b);
      if s.requests[a].held {
        assert MustPrecede(s.requests[a], s.requests[b]);
      } else {
        assert LockOk(o, s, k) && LockQueueOk(s, k);
        var queue := s.locks[k].waiters;
        assert b in queue && queue[0] == a;
        var at :| 0 <= at < |queue| && queue[at] == b;
      }
    }
  }

  // ---------------------------------------------------------------- finishing

  lemma FinishKeepsShards(o: Options, s: State, r: Req)
    requires ShardsOk(o, s) && At(s, r, Finishing)
    ensures ShardsOk(o, Finish(o, s, r))
  {
    var t := Finish(o, s, r);
    var i := ShardOf(o, s.requests[r].key);
    assert ShardOk(o, s, i);
    ShardSumsUpdate(o, i, s.requests, r, t.requests[r]);
    assert PermitQueueOk(o, t, i);
    assert CircuitOk(o, t, i);
    OneChangeOthers(o, s, t, i, r);
  }

  lemma FinishKeeps(o: Options, s: State, r: Req)
    requires Inv(o, s) && At(s, r, Finishing)
    ensures Inv(o, Finish(o, s, r))
  {
    hide ShardOk, LockOk;
    var t := Finish(o, s, r);
    FinishKeepsShards(o, s, r);
    AllLocksKept(o, s, t);
    FifoKept(s, t);
    LiveIsNotIdle(o, s, r);
    forall i | 0 <= i < |t.shards|
      ensures ShutdownOk(t, t.shards[i])
    {
      assert ShutdownOk(s, s.shards[i]);
    }
  }

  // ---------------------------------------------------------------- arriving

  ghost predicate Admits(o: Options, s: State, k: Key, aborted: bool, now: int)
    requires Shaped(o, s)
  {
    s.stage.Open? && !aborted && !Authorize(o, s.shards[ShardOf(o, k)], now).CircuitOpen? &&
    s.shards[ShardOf(o, k)].admitted < Capacity(o)
  }

  lemma ArriveKeepsShards(o: Options, s: State, k: Key, aborted: bool, now: int)
    requires ShardsOk(o, s) && Admits(o, s, k, aborted, now)
    ensures ShardsOk(o, Arrive(o, s, k, aborted, now))
  {
    var t := Arrive(o, s, k, aborted, now);
    var i := ShardOf(o, k);
    var q := t.requests[|s.requests|];
    assert ShardOk(o, s, i);
    SumAppend(o, Permits(i), s.requests, q);
    SumAppend(o, Queue(i), s.requests, q);
    SumAppend(o, Admitted(i), s.requests, q);
    SumAppend(o, Probes(i), s.requests, q);
    assert PermitQueueOk(o, t, i);
    assert CircuitOk(o, t, i);
    OtherShardsKept(o, s, t, i);
  }

  lemma ArriveKeepsLocks(o: Options, s: State, k: Key, aborted: bool, now: int)
    requires Shaped(o, s) && LocksOk(o, s) && Admits(o, s, k, aborted, now)
    ensures LocksOk(o, Arrive(o, s, k, aborted, now))
  {
    hide LockOk;
    var t := Arrive(o, s, k, aborted, now);
    ArriveKeepsLock(o, s, k, aborted, now);
    OtherLocksKept(o, s, t, k);
  }

  lemma ArriveKeepsLock(o: Options, s: State, k: Key, aborted: bool, now: int)
    requires Shaped(o, s) && LocksOk(o, s) && Admits(o, s, k, aborted, now)
    ensures LockOk(o, Arrive(o, s, k, aborted, now), k)
  {
    var t := Arrive(o, s, k, aborted, now);
    hide Sum, Sorted, LockQueueOk;
    assert LockOk(o, s, k);
    SumAppend(o, Users(k), s.requests, t.requests[|s.requests|]);
    SumAppend(o, Owners(k), s.requests, t.requests[|s.requests|]);
    ArriveQueue(o, s, k, aborted, now);
  }

  lemma ArriveQueue(o: Options, s: State, k: Key, aborted: bool, now: int)
    requires Shaped(o, s) && LockOk(o, s, k) && Admits(o, s, k, aborted, now)
    ensures var t := Arrive(o, s, k, aborted, now);
            LockQueueOk(t, k) && k in t.locks && Sorted(t.locks[k].waiters)
  {
    var t := Arrive(o, s, k, aborted, now);
    var before, after := LockFor(s, k).waiters, t.locks[k].waiters;
    assert LockQueueOk(s, k);
    forall a | 0 <= a < |before|
      ensures before[a] < |s.requests|
    {
      assert before[a] in before;
    }
    forall r: Req
      ensures r in after <==> r < |t.requests| && t.requests[r].key == k && t.requests[r].phase == LockWaiting
    {
      if r < |s.requests| {
        assert t.requests[r] == s.requests[r];
        assert r in before <==> s.requests[r].key == k && s.requests[r].phase == LockWaiting;
      }
    }
  }

  lemma ArriveKeepsFlow(o: Options, s: State, k: Key, aborted: bool, now: int)
    requires Shaped(o, s) && LocksOk(o, s) && FlowOk(s) && Admits(o, s, k, aborted, now)
    ensures FlowOk(Arrive(o, s, k, aborted, now))
  {
    var t := Arrive(o, s, k, aborted, now);
    var n := |s.requests|;
    assert LockOk(o, s, k) && LockQueueOk(s, k);
    forall a, b | 0 <= a < |t.requests| && 0 <= b < |t.requests| && MustPrecede(t.requests[a], t.requests[b])
      ensures a < b
    {
      if b < n {
        assert b in LockFor(s, k).waiters || s.requests[b].key != k;
        if a < n {
          assert MustPrecede(s.requests[a], s.requests[b]);
        }
      }
    }
    assert t.stage.Open?;
    forall i | 0 <= i < |t.shards|
      ensures ShutdownOk(t, t.shards[i])
    {
      assert ShutdownOk(s, s.shards[i]);
    }
  }

  lemma ArriveKeeps(o: Options, s: State, k: Key, aborted: bool, now: int)
    requires Inv(o, s)
    ensures Inv(o, Arrive(o, s, k, aborted, now))
  {
    hide ShardOk, LockOk;
    if Admits(o, s, k, aborted, now) {
      ArriveKeepsShards(o, s, k, aborted, now);
      ArriveKeepsLocks(o, s, k, aborted, now);
      ArriveKeepsFlow(o, s, k, aborted, now);
    }
  }

  // ---------------------------------------------------------------- aborting

  lemma AbortInLockQueue(o: Options, s: State, r: Req)
    requires LocksOk(o, s) && At(s, r, LockWaiting) && Shaped(o, s)
    ensures s.requests[r].key in s.locks && LocksOk(o, Abort(o, s, r))
  {
    hide Sum, Without;
    var t := Abort(o, s, r);
    var k := s.requests[r].key;
    UserHasEntry(o, s, r);
    assert LockOk(o, s, k) && LockQueueOk(s, k);
    LockSumsUpdate(o, k, s.requests, r, t.requests[r]);
    var queue := s.locks[k].waiters;
    SortedIsDistinct(queue);
    WithoutRemoves(queue, r);
    WithoutKeepsOrder(queue, r);
    forall x: Req
      ensures x in t.locks[k].waiters <==>
                x < |t.requests| && t.requests[x].key == k && t.requests[x].phase == LockWaiting
    {
      assert x in queue <==> x < |s.requests| && s.requests[x].key == k && s.requests[x].phase == LockWaiting;
    }
    assert LockOk(o, t, k);
    hide LockOk;
    OtherLocksKept(o, s, t, k);
  }

  lemma AbortInPermitQueue(o: Options, s: State, r: Req)
    requires ShardsOk(o, s) && At(s, r, PermitWaiting)
    ensures ShardsOk(o, Abort(o, s, r))
  {
    hide Without;
    var t := Abort(o, s, r);
    var i := ShardOf(o, s.requests[r].key);
    assert ShardOk(o, s, i);
    var queue := s.shards[i].waiters;
    assert r in queue;
    ShardSumsUpdate(o, i, s.requests, r, t.requests[r]);
    WithoutRemoves(queue, r);
    forall x: Req
      ensures x in t.shards[i].waiters <==> x < |t.requests| && Counted(o, Queue(i), t.requests[x])
    {
      assert x in queue <==> x < |s.requests| && Counted(o, Queue(i), s.requests[x]);
    }
    assert PermitQueueOk(o, t, i);
    assert CircuitOk(o, t, i) by {
      forall x: Req | x in t.shards[i].waiters && x < |t.requests| && t.shards[i].openedAt.Some?
        ensures t.requests[x].probe
      {
        assert x in queue;
      }
    }
    OneChangeOthers(o, s, t, i, r);
  }

  lemma AbortKeepsFlow(o: Options, s: State, r: Req)
    requires Shaped(o, s) && FlowOk(s) && LocksOk(o, s) && r < |s.requests|
    ensures FlowOk(Abort(o, s, r))
  {
    hide LockOk;
    var t := Abort(o, s, r);
    if s.requests[r].phase == LockWaiting {
      UserHasEntry(o, s, r);
    }
    forall a, b | 0 <= a < |t.requests| && 0 <= b < |t.requests| && MustPrecede(t.requests[a], t.requests[b])
      ensures a < b
    {
      assert MustPrecede(s.requests[a], s.requests[b]);
    }
    SameIdle(s, t);
    StageKept(s, t);
  }

  lemma AbortKeeps(o: Options, s: State, r: Req)
    requires Inv(o, s) && r < |s.requests|
    ensures Inv(o, Abort(o, s, r))
  {
    hide ShardOk, LockOk, FifoOk, HeldOk, WaitersOk, StageOk;
    var t := Abort(o, s, r);
    AbortKeepsFlow(o, s, r);
    if s.requests[r].phase == LockWaiting {
      AbortInLockQueue(o, s, r);
      AllShardsKept(o, s, t);
    } else if s.requests[r].phase == PermitWaiting {
      AbortInPermitQueue(o, s, r);
      AllLocksKept(o, s, t);
    } else {
      AllShardsKept(o, s, t);
      AllLocksKept(o, s, t);
    }
  }

  // ---------------------------------------------------------------- closing

  /** Exactly the requests suspended in a queue are turned away. */
  lemma QueuedIsWaiting(o: Options, s: State, r: Req)
    requires ShardsOk(o, s) && LocksOk(o, s) && r < |s.requests|
    ensures Queued(s, r) <==> IsWaiting(s.requests[r].phase)
  {
    var q := s.requests[r];
    var i := ShardOf(o, q.key);
    assert ShardOk(o, s, i);
    if q.phase == LockWaiting {
      assert LockOk(o, s, q.key) && LockQueueOk(s, q.key);
    }
    if exists j :: 0 <= j < |s.shards| && r in s.shards[j].waiters {
      var j :| 0 <= j < |s.shards| && r in s.shards[j].waiters;
      QueuedRequest(o, s, j, r);
    }
    if exists k :: k in s.locks && r in s.locks[k].waiters {
      var k :| k in s.locks && r in s.locks[k].waiters;
      assert LockOk(o, s, k) && LockQueueOk(s, k);
    }
  }

  lemma TurnAwayMoves(o: Options, s: State, r: Req)
    requires ShardsOk(o, s) && LocksOk(o, s) && r < |s.requests|
    ensures TurnAway(s)[r] == s.requests[r].(phase := Refused(s.requests[r].phase))
  {
    QueuedIsWaiting(o, s, r);
  }

  lemma CloseKeepsShard(o: Options, s: State, i: nat)
    requires ShardsOk(o, s) && LocksOk(o, s) && s.stage.Open? && i < o.shardCount
    ensures ShardOk(o, Close(s), i)
  {
    var t := Close(s);
    var a, b := s.requests, TurnAway(s);
    assert ShardOk(o, s, i);
    forall r | 0 <= r < |a|
      ensures One(o, Permits(i), a[r]) == One(o, Permits(i), b[r])
      ensures One(o, Admitted(i), a[r]) == One(o, Admitted(i), b[r])
      ensures One(o, Probes(i), a[r]) == One(o, Probes(i), b[r])
      ensures !Counted(o, Queue(i), b[r])
    {
      TurnAwayMoves(o, s, r);
    }
    SumSame(o, Permits(i), a, b);
    SumSame(o, Admitted(i), a, b);
    SumSame(o, Probes(i), a, b);
    SumNone(o, Queue(i), b);
    CloseShards(s, i);
    assert PermitQueueOk(o, t, i);
  }

  lemma CloseShards(s: State, i: nat)
    requires s.stage.Open? && i < |s.shards|
    ensures |Close(s).shards| == |s.shards| && Close(s).requests == TurnAway(s)
    ensures SameCounters(Close(s).shards[i], s.shards[i].(waiters := []))
  {}

  lemma CloseKeepsLock(o: Options, s: State, k: Key)
    requires ShardsOk(o, s) && LocksOk(o, s) && s.stage.Open?
    ensures LockOk(o, Close(s), k)
  {
    var t := Close(s);
    var a, b := s.requests, TurnAway(s);
    assert LockOk(o, s, k);
    forall r | 0 <= r < |a|
      ensures One(o, Users(k), a[r]) == One(o, Users(k), b[r])
      ensures One(o, Owners(k), a[r]) == One(o, Owners(k), b[r])
      ensures b[r].phase != LockWaiting
    {
      TurnAwayMoves(o, s, r);
    }
    SumSame(o, Users(k), a, b);
    SumSame(o, Owners(k), a, b);
    assert t.requests == b && t.locks == EmptyLockQueues(s.locks);
  }

  lemma CloseKeepsFlow(o: Options, s: State)
    requires ShardsOk(o, s) && LocksOk(o, s) && FlowOk(s) && s.stage.Open?
    ensures FlowOk(Close(s))
  {
    hide ShardOk, LockOk;
    var t := Close(s);
    assert |t.requests| == |s.requests|;
    forall r | 0 <= r < |t.requests|
      ensures !IsWaiting(t.requests[r].phase) && (OwnsLock(t.requests[r].phase) ==> t.requests[r].held)
    {
      TurnAwayMoves(o, s, r);
    }
    var emptied := EmptyShardQueues(s.shards);
    forall i | 0 <= i < |s.shards|
      ensures SameLifecycle(emptied[i], s.shards[i]) &&
              t.shards[i].admitted == emptied[i].admitted == s.shards[i].admitted
      ensures ShutdownOk(t, t.shards[i])
    {
      assert ShutdownOk(s, s.shards[i]);
    }
    if AllIdle(emptied) {
      forall i | 0 <= i < |t.shards|
        ensures t.shards[i].admitted == 0
      {
        assert emptied[i].admitted == 0;
      }
    }
  }

  lemma CloseKeeps(o: Options, s: State)
    requires Inv(o, s)
    ensures Inv(o, Close(s))
  {
    hide ShardOk, LockOk, FifoOk, HeldOk, WaitersOk, StageOk;
    if s.stage.Open? {
      var t := Close(s);
      assert |t.shards| == |s.shards|;
      forall i | 0 <= i < o.shardCount
        ensures ShardOk(o, t, i)
      {
        CloseKeepsShard(o, s, i);
      }
      forall k
        ensures LockOk(o, t, k)
      {
        CloseKeepsLock(o, s, k);
      }
      CloseKeepsFlow(o, s);
    }
  }

  /** Steps that only touch the life of backends or the stage of closing. */
  lemma LifecycleKeeps(o: Options, s: State, t: State)
    requires Inv(o, s) && Shaped(o, t) && t.requests == s.requests && t.locks == s.locks
    requires forall i :: 0 <= i < o.shardCount ==> SameCounters(s.shards[i], t.shards[i])
    requires t.stage.Open? <==> s.stage.Open?
    requires StageOk(t)
    ensures Inv(o, t)
  {
    hide ShardOk, LockOk, StageOk;
    AllShardsKept(o, s, t);
    AllLocksKept(o, s, t);
  }

  lemma StartupKeeps(o: Options, s: State, i: nat, ok: bool)
    requires Inv(o, s) && i < |s.shards| && s.shards[i].starting
    ensures Inv(o, Startup(s, i, ok))
  {
    hide ShardOk, LockOk;
    var t := Startup(s, i, ok);
    SameIdle(s, t);
    forall j | 0 <= j < |t.shards|
      ensures ShutdownOk(t, t.shards[j])
      ensures !t.stage.Closed? ==> t.shards[j].shutdowns == 0 && !t.shards[j].closeOnStart
    {
      assert ShutdownOk(s, s.shards[j]);
    }
    LifecycleKeeps(o, s, t);
  }

  lemma ResumeCloseKeeps(o: Options, s: State)
    requires Inv(o, s) && s.stage.DrainSettled?
    ensures Inv(o, ResumeClose(s))
  {
    hide ShardOk, LockOk;
    var t := ResumeClose(s);
    SameIdle(s, t);
    forall j | 0 <= j < |t.shards|
      ensures ShutdownOk(t, t.shards[j])
    {
      assert ShutdownOk(s, s.shards[j]);
    }
    LifecycleKeeps(o, s, t);
  }

  lemma DrainTimeoutKeeps(o: Options, s: State)
    requires Inv(o, s) && s.stage.Draining?
    ensures Inv(o, DrainTimeout(s))
  {
    hide ShardOk, LockOk;
    var t := DrainTimeout(s);
    forall j | 0 <= j < |t.shards|
      ensures ShutdownOk(t, t.shards[j])
    {
      assert ShutdownOk(s, s.shards[j]);
    }
    LifecycleKeeps(o, s, t);
  }
}
