/** Every step of the supervisor keeps the invariant. */
module SupervisorSteps {
  import opened SupervisorModel
  import opened SupervisorInvariant
  import opened Wrappers

  // ---------------------------------------------------------------- queues

  lemma {:induction false} NothingToSkip(reqs: seq<Request>, queue: seq<Req>)
    requires forall r :: r in queue ==> !IsAborted(reqs, r)
    ensures SkipAborted(reqs, queue) == queue
  {}

  lemma {:induction false} WithoutRemoves(queue: seq<Req>, r: Req)
    requires Distinct(queue) && r in queue
    ensures |Without(queue, r)| == |queue| - 1 && Distinct(Without(queue, r))
    ensures forall x :: x in Without(queue, r) <==> x in queue && x != r
  {
    var head, rest := queue[0], queue[1..];
    assert queue == [head] + rest;
    assert Distinct(rest) && head !in rest;
    if head != r {
      WithoutRemoves(rest, r);
      PrependDistinct(head, Without(rest, r));
    }
  }

  lemma PrependDistinct(x: Req, queue: seq<Req>)
    requires Distinct(queue) && x !in queue
    ensures Distinct([x] + queue)
  {}

  lemma {:induction false} WithoutKeepsOrder(queue: seq<Req>, r: Req)
    requires Sorted(queue)
    ensures Sorted(Without(queue, r)) && forall x :: x in Without(queue, r) ==> x in queue
  {
    if queue != [] && queue[0] != r {
      var head, rest := queue[0], queue[1..];
      assert queue == [head] + rest;
      WithoutKeepsOrder(rest, r);
      assert forall x :: x in rest ==> head < x;
      PrependSorted(head, Without(rest, r));
    }
  }

  lemma PrependSorted(x: Req, queue: seq<Req>)
    requires Sorted(queue) && forall y :: y in queue ==> x < y
    ensures Sorted([x] + queue)
  {
    forall b | 0 <= b < |queue|
      ensures x < queue[b]
    {
      assert queue[b] in queue;
    }
  }

  lemma SortedIsDistinct(queue: seq<Req>)
    requires Sorted(queue)
    ensures Distinct(queue)
  {}

  lemma SumNone(o: Options, t: Tally, reqs: seq<Request>)
    requires forall r :: 0 <= r < |reqs| ==> !Counted(o, t, reqs[r])
    ensures Sum(o, t, reqs) == 0
  {
    if Sum(o, t, reqs) > 0 {
      var r := SumFinds(o, t, reqs);
    }
  }

  // ---------------------------------------------------------------- frames

  ghost predicate ShardsOk(o: Options, s: State) {
    Shaped(o, s) && forall i :: 0 <= i < o.shardCount ==> ShardOk(o, s, i)
  }

  ghost predicate LocksOk(o: Options, s: State) {
    forall k :: LockOk(o, s, k)
  }

  lemma AllShardsKept(o: Options, s: State, t: State)
    requires ShardsOk(o, s) && Shaped(o, t)
    requires forall i :: 0 <= i < o.shardCount ==> SameCounters(s.shards[i], t.shards[i])
    requires |s.requests| == |t.requests|
    requires forall r :: 0 <= r < |s.requests| ==> ShardView(s.requests[r]) == ShardView(t.requests[r])
    ensures ShardsOk(o, t)
  {
    forall i | 0 <= i < o.shardCount
      ensures ShardOk(o, t, i)
    {
      forall r | 0 <= r < |s.requests|
        ensures SameForShard(o, i, s.requests[r], t.requests[r])
      {
        assert ShardView(s.requests[r]) == ShardView(t.requests[r]);
      }
      ShardKept(o, s, t, i);
    }
  }

  function ShardView(q: Request): (Key, bool, Standing) { (q.key, q.probe, ShardStanding(q.phase)) }

  lemma AllLocksKept(o: Options, s: State, t: State)
    requires LocksOk(o, s) && s.locks == t.locks && |s.requests| == |t.requests|
    requires forall r :: 0 <= r < |s.requests| ==> LockView(s.requests[r]) == LockView(t.requests[r])
    ensures LocksOk(o, t)
  {
    forall k
      ensures LockOk(o, t, k)
    {
      assert LockOk(o, s, k);
      forall r | 0 <= r < |s.requests|
        ensures SameForLock(k, s.requests[r], t.requests[r])
      {
        assert LockView(s.requests[r]) == LockView(t.requests[r]);
      }
      LockKept(o, s, t, k);
    }
  }

  function LockView(q: Request): (Key, LockStanding) { (q.key, StandingAtLock(q.phase)) }

  /** Requests outside shard i and the counters of all other shards did not change. */
  lemma OtherShardsKept(o: Options, s: State, t: State, i: nat)
    requires ShardsOk(o, s) && Shaped(o, t) && i < o.shardCount
    requires forall j :: 0 <= j < o.shardCount && j != i ==> SameCounters(s.shards[j], t.shards[j])
    requires |s.requests| <= |t.requests|
    requires forall r :: 0 <= r < |s.requests| ==> ChangedOnlyIn(o, i, s.requests[r], t.requests[r])
    requires forall r :: |s.requests| <= r < |t.requests| ==> ShardOf(o, t.requests[r].key) == i
    requires ShardOk(o, t, i)
    ensures ShardsOk(o, t)
  {
    forall j | 0 <= j < o.shardCount && j != i
      ensures ShardOk(o, t, j)
    {
      forall r | 0 <= r < |s.requests|
        ensures SameForShard(o, j, s.requests[r], t.requests[r])
      {
        assert ChangedOnlyIn(o, i, s.requests[r], t.requests[r]);
      }
      ShardKept(o, s, t, j);
    }
  }

  predicate ChangedOnlyIn(o: Options, i: nat, a: Request, b: Request) {
    a.key == b.key && a.probe == b.probe &&
    (ShardOf(o, a.key) != i ==> ShardStanding(a.phase) == ShardStanding(b.phase))
  }

  lemma OtherLocksKept(o: Options, s: State, t: State, k: Key)
    requires LocksOk(o, s)
    requires forall j :: j != k ==> (j in s.locks <==> j in t.locks) && (j in s.locks ==> s.locks[j] == t.locks[j])
    requires |s.requests| <= |t.requests|
    requires forall r :: 0 <= r < |s.requests| ==> ChangedOnlyAt(k, s.requests[r], t.requests[r])
    requires forall r :: |s.requests| <= r < |t.requests| ==> t.requests[r].key == k
    requires LockOk(o, t, k)
    ensures LocksOk(o, t)
  {
    forall j | j != k
      ensures LockOk(o, t, j)
    {
      assert LockOk(o, s, j);
      forall r | 0 <= r < |s.requests|
        ensures SameForLock(j, s.requests[r], t.requests[r])
      {
        assert ChangedOnlyAt(k, s.requests[r], t.requests[r]);
      }
      LockKept(o, s, t, j);
    }
  }

  predicate ChangedOnlyAt(k: Key, a: Request, b: Request) {
    a.key == b.key && (a.key != k ==> StandingAtLock(a.phase) == StandingAtLock(b.phase))
  }

  ghost predicate SameLifecycle(a: Shard, b: Shard) {
    a.backend == b.backend && a.starting == b.starting && a.closeOnStart == b.closeOnStart && a.shutdowns == b.shutdowns
  }

  lemma StageKept(s: State, t: State)
    requires StageOk(s) && s.stage == t.stage && |s.shards| == |t.shards|
    requires forall i :: 0 <= i < |s.shards| ==> SameLifecycle(s.shards[i], t.shards[i])
    requires AllIdle(s.shards) <==> AllIdle(t.shards)
    ensures StageOk(t)
  {
    forall i | 0 <= i < |t.shards|
      ensures ShutdownOk(t, t.shards[i])
    {
      assert SameLifecycle(s.shards[i], t.shards[i]) && ShutdownOk(s, s.shards[i]);
    }
  }

  lemma SameIdle(s: State, t: State)
    requires |s.shards| == |t.shards| &&
             forall i :: 0 <= i < |s.shards| ==> s.shards[i].admitted == t.shards[i].admitted
    ensures AllIdle(s.shards) <==> AllIdle(t.shards)
  {
    if AllIdle(t.shards) {
      forall i | 0 <= i < |s.shards|
        ensures s.shards[i].admitted == 0
      {
        assert t.shards[i].admitted == 0;
      }
    }
  }

  /** The sums of a shard after one request changed. */
  lemma ShardSumsUpdate(o: Options, i: nat, reqs: seq<Request>, r: Req, q: Request)
    requires r < |reqs|
    ensures Sum(o, Permits(i), reqs[r := q]) ==
            Sum(o, Permits(i), reqs) - One(o, Permits(i), reqs[r]) + One(o, Permits(i), q)
    ensures Sum(o, Queue(i), reqs[r := q]) == Sum(o, Queue(i), reqs) - One(o, Queue(i), reqs[r]) + One(o, Queue(i), q)
    ensures Sum(o, Admitted(i), reqs[r := q]) ==
            Sum(o, Admitted(i), reqs) - One(o, Admitted(i), reqs[r]) + One(o, Admitted(i), q)
    ensures Sum(o, Probes(i), reqs[r := q]) ==
            Sum(o, Probes(i), reqs) - One(o, Probes(i), reqs[r]) + One(o, Probes(i), q)
  {
    SumUpdate(o, Permits(i), reqs, r, q);
    SumUpdate(o, Queue(i), reqs, r, q);
    SumUpdate(o, Admitted(i), reqs, r, q);
    SumUpdate(o, Probes(i), reqs, r, q);
  }

  // ---------------------------------------------------------------- the initial state

  lemma InitOk(o: Options)
    ensures Inv(o, Init(o))
  {}

  // ---------------------------------------------------------------- resuming with the lock

  /** A request and its shard change together; everything the shard's invariants count is given. */
  ghost predicate OneChange(o: Options, s: State, t: State, i: nat, r: Req) {
    ShardsOk(o, s) && Shaped(o, t) && r < |s.requests| && |t.requests| == |s.requests| &&
    i == ShardOf(o, s.requests[r].key) &&
    t.requests == s.requests[r := t.requests[r]] && t.shards == s.shards[i := t.shards[i]] &&
    t.requests[r].key == s.requests[r].key && t.requests[r].probe == s.requests[r].probe
  }

  lemma OneChangeOthers(o: Options, s: State, t: State, i: nat, r: Req)
    requires OneChange(o, s, t, i, r) && ShardOk(o, t, i)
    ensures ShardsOk(o, t)
  {
    hide ShardOk;
    OtherShardsKept(o, s, t, i);
  }

  lemma TakesPermit(o: Options, s: State, t: State, i: nat, r: Req)
    requires OneChange(o, s, t, i, r) && s.shards[i].inflight < o.maxInflight
    requires s.requests[r].phase == LockGranted && t.requests[r].phase == PermitGranted
    requires t.shards[i] == s.shards[i].(inflight := s.shards[i].inflight + 1)
    ensures ShardsOk(o, t)
  {
    assert ShardOk(o, s, i);
    ShardSumsUpdate(o, i, s.requests, r, t.requests[r]);
    assert PermitQueueOk(o, t, i);
    OneChangeOthers(o, s, t, i, r);
  }

  lemma JoinsQueue(o: Options, s: State, t: State, i: nat, r: Req)
    requires OneChange(o, s, t, i, r) && s.shards[i].inflight >= o.maxInflight
    requires s.requests[r].phase == LockGranted && t.requests[r].phase == PermitWaiting
    requires s.requests[r].probe || s.shards[i].openedAt.None?
    requires t.shards[i] == s.shards[i].(waiters := s.shards[i].waiters + [r])
    ensures ShardsOk(o, t)
  {
    assert ShardOk(o, s, i);
    assert r !in s.shards[i].waiters;
    ShardSumsUpdate(o, i, s.requests, r, t.requests[r]);
    assert PermitQueueOk(o, t, i);
    assert CircuitOk(o, t, i);
    OneChangeOthers(o, s, t, i, r);
  }

  lemma GivesUp(o: Options, s: State, t: State, r: Req)
    requires ShardsOk(o, s) && s.shards == t.shards && r < |s.requests|
    requires t.requests == Enter(s.requests, r, Unwinding) && ShardStanding(s.requests[r].phase) == Elsewhere
    ensures ShardsOk(o, t)
  {
    AllShardsKept(o, s, t);
  }

  lemma ResumeKeepsShards(o: Options, s: State, r: Req)
    requires ShardsOk(o, s) && At(s, r, LockGranted)
    ensures ShardsOk(o, Resume(o, s, r))
  {
    hide ShardOk;
    var t := Resume(o, s, r);
    var q := s.requests[r];
    var i := ShardOf(o, q.key);
    if t.requests[r].phase == PermitGranted {
      TakesPermit(o, s, t, i, r);
    } else if t.requests[r].phase == PermitWaiting {
      JoinsQueue(o, s, t, i, r);
    } else {
      GivesUp(o, s, t, r);
    }
  }

  /** The parts of the invariant that do not count anything. */
  ghost predicate FlowOk(s: State) {
    WaitersOk(s) && FifoOk(s) && HeldOk(s) && StageOk(s)
  }

  /** No request but r changed, and r stays what it was for its lock. */
  lemma FlowKept(o: Options, s: State, t: State, r: Req)
    requires FlowOk(s) && r < |s.requests| && |t.requests| == |s.requests|
    requires t.requests == s.requests[r := t.requests[r]] && LockView(s.requests[r]) == LockView(t.requests[r])
    requires t.requests[r].held == s.requests[r].held
    requires IsWaiting(t.requests[r].phase) ==> !t.requests[r].aborted && t.stage.Open?
    requires s.stage == t.stage && |s.shards| == |t.shards|
    requires forall i :: 0 <= i < |s.shards| ==>
               SameLifecycle(s.shards[i], t.shards[i]) && s.shards[i].admitted == t.shards[i].admitted
    ensures FlowOk(t)
  {
    SameIdle(s, t);
    StageKept(s, t);
    FifoKept(s, t);
  }

  lemma FifoKept(s: State, t: State)
    requires FifoOk(s) && |s.requests| == |t.requests|
    requires forall r :: 0 <= r < |s.requests| ==>
               LockView(s.requests[r]) == LockView(t.requests[r]) && s.requests[r].held == t.requests[r].held
    ensures FifoOk(t)
  {
    forall a, b | 0 <= a < |t.requests| && 0 <= b < |t.requests| && MustPrecede(t.requests[a], t.requests[b])
      ensures a < b
    {
      assert LockView(s.requests[a]) == LockView(t.requests[a]) && LockView(s.requests[b]) == LockView(t.requests[b]);
      assert MustPrecede(s.requests[a], s.requests[b]);
    }
  }

  lemma ResumeKeeps(o: Options, s: State, r: Req)
    requires Inv(o, s) && At(s, r, LockGranted)
    ensures Inv(o, Resume(o, s, r))
  {
    hide ShardOk, LockOk, WaitersOk, FifoOk, HeldOk, StageOk;
    var t := Resume(o, s, r);
    ResumeKeepsShards(o, s, r);
    AllLocksKept(o, s, t);
    FlowKept(o, s, t, r);
  }

  /** The queue-full branch behind the admission check is dead. */
  lemma QueueNeverOverflows(o: Options, s: State, r: Req)
    requires Inv(o, s) && At(s, r, LockGranted)
    ensures var sh := s.shards[ShardOf(o, s.requests[r].key)];
            sh.inflight >= o.maxInflight ==> |sh.waiters| + 1 <= o.maxQueue
  {
    var i := ShardOf(o, s.requests[r].key);
    assert ShardOk(o, s, i);
    StandingsAreDisjoint(o, i, s.requests, r);
  }

  /** Permit holders, queued requests and one request that is neither are all admitted. */
  lemma {:induction false} StandingsAreDisjoint(o: Options, i: nat, reqs: seq<Request>, r: Req)
    requires r < |reqs| && ShardOf(o, reqs[r].key) == i && reqs[r].phase == LockGranted
    ensures Sum(o, Permits(i), reqs) + Sum(o, Queue(i), reqs) + 1 <= Sum(o, Admitted(i), reqs)
  {
    var last := |reqs| - 1;
    if r < last {
      StandingsAreDisjoint(o, i, reqs[..last], r);
    } else {
      SumsAreDisjoint(o, i, reqs[..last]);
    }
  }

  lemma {:induction false} SumsAreDisjoint(o: Options, i: nat, reqs: seq<Request>)
    ensures Sum(o, Permits(i), reqs) + Sum(o, Queue(i), reqs) <= Sum(o, Admitted(i), reqs)
  {
    if reqs != [] {
      SumsAreDisjoint(o, i, reqs[..|reqs| - 1]);
    }
  }

  // ---------------------------------------------------------------- beginning the backend call

  lemma BeginKeeps(o: Options, s: State, r: Req, factoryThrows: bool)
    requires Inv(o, s) && At(s, r, PermitGranted)
    ensures Inv(o, Begin(o, s, r, factoryThrows))
  {
    hide ShardOk, LockOk, WaitersOk, FifoOk, HeldOk;
    var t := Begin(o, s, r, factoryThrows);
    AllShardsKept(o, s, t);
    AllLocksKept(o, s, t);
    SameIdle(s, t);
    BeginKeepsStage(o, s, r, factoryThrows);
    FifoKept(s, t);
    WaitersKept(s, t, r);
  }

  lemma WaitersKept(s: State, t: State, r: Req)
    requires WaitersOk(s) && HeldOk(s) && r < |s.requests| && |t.requests| == |s.requests| && s.stage == t.stage
    requires t.requests == s.requests[r := t.requests[r]]
    requires IsWaiting(t.requests[r].phase) ==> !t.requests[r].aborted && t.stage.Open?
    requires OwnsLock(t.requests[r].phase) ==> t.requests[r].held
    ensures WaitersOk(t) && HeldOk(t)
  {}

  /** A shard with a live request is not idle. */
  lemma LiveIsNotIdle(o: Options, s: State, r: Req)
    requires ShardsOk(o, s) && r < |s.requests| && s.requests[r].phase != Done
    ensures s.shards[ShardOf(o, s.requests[r].key)].admitted >= 1 && !AllIdle(s.shards)
  {
    var i := ShardOf(o, s.requests[r].key);
    assert ShardOk(o, s, i);
    SumIncludes(o, Admitted(i), s.requests, r);
  }

  lemma BeginKeepsStage(o: Options, s: State, r: Req, factoryThrows: bool)
    requires ShardsOk(o, s) && HeldOk(s) && StageOk(s) && At(s, r, PermitGranted)
    ensures StageOk(Begin(o, s, r, factoryThrows)) && s.requests[r].held
  {
    var t := Begin(o, s, r, factoryThrows);
    LiveIsNotIdle(o, s, r);
    SameIdle(s, t);
    forall i | 0 <= i < |t.shards|
      ensures ShutdownOk(t, t.shards[i])
    {
      assert ShutdownOk(s, s.shards[i]);
    }
  }

  // ---------------------------------------------------------------- settling

  lemma QueuedRequest(o: Options, s: State, i: nat, r: Req)
    requires ShardsOk(o, s) && i < o.shardCount && r in s.shards[i].waiters
    ensures r < |s.requests| && ShardOf(o, s.requests[r].key) == i && s.requests[r].phase == PermitWaiting
  {
    assert ShardOk(o, s, i);
  }

  /** Emptying the queue of shard i and turning its requests away. */
  ghost predicate QueueTurnedAway(o: Options, s: State, t: State, i: nat)
    requires Shaped(o, s) && Shaped(o, t) && i < o.shardCount
  {
    t.requests == EnterAll(s.requests, s.shards[i].waiters, Unwinding) && t.shards == s.shards[i := t.shards[i]] &&
    t.shards[i].waiters == [] && t.shards[i].inflight == s.shards[i].inflight &&
    t.shards[i].admitted == s.shards[i].admitted && t.shards[i].halfOpenProbe == s.shards[i].halfOpenProbe &&
    (t.shards[i].openedAt.Some? <==> t.shards[i].consecutiveFailures >= o.failureThreshold)
  }

  lemma TurningAwayKeepsShards(o: Options, s: State, t: State, i: nat)
    requires ShardsOk(o, s) && Shaped(o, t) && i < o.shardCount && QueueTurnedAway(o, s, t, i)
    ensures ShardsOk(o, t)
  {
    var a, b := s.requests, t.requests;
    assert ShardOk(o, s, i);
    forall r | 0 <= r < |a|
      ensures ChangedOnlyIn(o, i, a[r], b[r])
      ensures One(o, Permits(i), a[r]) == One(o, Permits(i), b[r])
      ensures One(o, Admitted(i), a[r]) == One(o, Admitted(i), b[r])
      ensures One(o, Probes(i), a[r]) == One(o, Probes(i), b[r])
      ensures !Counted(o, Queue(i), b[r])
    {
      if r in s.shards[i].waiters {
        QueuedRequest(o, s, i, r);
      }
    }
    SumSame(o, Permits(i), a, b);
    SumSame(o, Admitted(i), a, b);
    SumSame(o, Probes(i), a, b);
    SumNone(o, Queue(i), b);
    assert PermitQueueOk(o, t, i);
    OtherShardsKept(o, s, t, i);
  }

  lemma RecordKeepsShards(o: Options, s: State, i: nat, outcome: Outcome, now: int)
    requires ShardsOk(o, s) && i < o.shardCount
    ensures ShardsOk(o, Record(o, s, i, outcome, now))
  {
    var t := Record(o, s, i, outcome, now);
    if t.requests == s.requests && t.shards[i].waiters == s.shards[i].waiters {
      assert ShardOk(o, s, i);
      assert ShardOk(o, t, i);
      OtherShardsKept(o, s, t, i);
    } else {
      TurningAwayKeepsShards(o, s, t, i);
    }
  }

  /** What Record does to single requests: it can only move queued ones of the shard to Unwinding. */
  lemma RecordMoves(o: Options, s: State, i: nat, outcome: Outcome, now: int, r: Req)
    requires ShardsOk(o, s) && i < o.shardCount && r < |s.requests|
    ensures var q, u := s.requests[r], Record(o, s, i, outcome, now).requests[r];
            u == q || (q.phase == PermitWaiting && u == q.(phase := Unwinding))
  {
    if r in s.shards[i].waiters {
      QueuedRequest(o, s, i, r);
    }
  }

  lemma RecordKeeps(o: Options, s: State, i: nat, outcome: Outcome, now: int)
    requires Inv(o, s) && i < o.shardCount
    ensures Inv(o, Record(o, s, i, outcome, now))
  {
    hide ShardOk, LockOk, Record;
    var t := Record(o, s, i, outcome, now);
    RecordKeepsShards(o, s, i, outcome, now);
    RecordFrame(o, s, i, outcome, now);
    forall r | 0 <= r < |s.requests|
      ensures LockView(s.requests[r]) == LockView(t.requests[r]) && s.requests[r].held == t.requests[r].held
      ensures IsWaiting(t.requests[r].phase) ==> t.requests[r] == s.requests[r]
    {
      RecordMoves(o, s, i, outcome, now, r);
    }
    AllLocksKept(o, s, t);
    FifoKept(s, t);
    SameIdle(s, t);
    StageKept(s, t);
  }

  lemma RecordFrame(o: Options, s: State, i: nat, outcome: Outcome, now: int)
    requires Shaped(o, s) && i < o.shardCount
    ensures var t := Record(o, s, i, outcome, now);
            t.locks == s.locks && t.stage == s.stage && |t.requests| == |s.requests| && |t.shards| == |s.shards| &&
            forall j :: 0 <= j < |s.shards| ==>
              SameLifecycle(s.shards[j], t.shards[j]) && s.shards[j].admitted == t.shards[j].admitted
  {}

  lemma NoneAborted(o: Options, s: State, i: nat)
    requires ShardsOk(o, s) && WaitersOk(s) && i < o.shardCount
    ensures SkipAborted(s.requests, s.shards[i].waiters) == s.shards[i].waiters
    ensures s.shards[i].waiters != [] ==> s.stage.Open?
  {
    forall r | r in s.shards[i].waiters
      ensures !IsAborted(s.requests, r) && s.stage.Open?
    {
      QueuedRequest(o, s, i, r);
    }
    NothingToSkip(s.requests, s.shards[i].waiters);
    if s.shards[i].waiters != [] {
      assert s.shards[i].waiters[0] in s.shards[i].waiters;
    }
  }

  /** The request's permit goes back, and the request unwinds. */
  function GiveBack(o: Options, s: State, r: Req): State
    requires Shaped(o, s) && At(s, r, Calling)
  {
    var after := ReleasePermit(o, s, ShardOf(o, s.requests[r].key));
    after.(requests := Enter(after.requests, r, Unwinding))
  }

  lemma GiveBackKeepsShards(o: Options, s: State, r: Req)
    requires ShardsOk(o, s) && WaitersOk(s) && At(s, r, Calling)
    ensures ShardsOk(o, GiveBack(o, s, r))
  {
    var t := GiveBack(o, s, r);
    var i := ShardOf(o, s.requests[r].key);
    var sh := s.shards[i];
    NoneAborted(o, s, i);
    if sh.waiters == [] {
      GiveBackToNobody(o, s, t, i, r);
    } else {
      QueuedRequest(o, s, i, sh.waiters[0]);
      HandsOver(o, s, t, i, r);
    }
  }

  lemma GiveBackToNobody(o: Options, s: State, t: State, i: nat, r: Req)
    requires OneChange(o, s, t, i, r) && s.shards[i].waiters == []
    requires s.requests[r].phase == Calling && t.requests[r].phase == Unwinding
    requires t.shards[i] == s.shards[i].(inflight := s.shards[i].inflight - 1)
    ensures ShardsOk(o, t)
  {
    assert ShardOk(o, s, i);
    ShardSumsUpdate(o, i, s.requests, r, t.requests[r]);
    assert PermitQueueOk(o, t, i);
    OneChangeOthers(o, s, t, i, r);
  }

  /** The permit of r goes to the head of the queue. */
  ghost predicate HandOver(o: Options, s: State, t: State, i: nat, r: Req) {
    ShardsOk(o, s) && Shaped(o, t) && At(s, r, Calling) && i == ShardOf(o, s.requests[r].key) &&
    s.shards[i].waiters != [] && At(s, s.shards[i].waiters[0], PermitWaiting) &&
    ShardOf(o, s.requests[s.shards[i].waiters[0]].key) == i &&
    t.requests == Enter(Enter(s.requests, s.shards[i].waiters[0], PermitGranted), r, Unwinding) &&
    t.shards == s.shards[i := s.shards[i].(waiters := s.shards[i].waiters[1..])]
  }

  /** The number of permits in use stays the same. */
  lemma HandsOver(o: Options, s: State, t: State, i: nat, r: Req)
    requires HandOver(o, s, t, i, r)
    ensures ShardsOk(o, t)
  {
    HandOverSums(o, s, t, i, r);
    HeadLeaves(o, s, t, i, r);
    HandOverCircuit(o, s, t, i, r);
    assert ShardOk(o, s, i);
    assert PermitsOk(o, t, i);
    hide PermitsOk, PermitQueueOk, CircuitOk;
    OtherShardsKept(o, s, t, i);
  }

  lemma HandOverSums(o: Options, s: State, t: State, i: nat, r: Req)
    requires HandOver(o, s, t, i, r)
    ensures Sum(o, Permits(i), t.requests) == Sum(o, Permits(i), s.requests)
    ensures Sum(o, Queue(i), t.requests) == Sum(o, Queue(i), s.requests) - 1
    ensures Sum(o, Admitted(i), t.requests) == Sum(o, Admitted(i), s.requests)
    ensures Sum(o, Probes(i), t.requests) == Sum(o, Probes(i), s.requests)
  {
    var w := s.shards[i].waiters[0];
    var middle := s.requests[w := s.requests[w].(phase := PermitGranted)];
    hide Sum, One, ShardsOk, ShardOf;
    PermitTaken(o, i, s.requests, w);
    PermitReturned(o, i, middle, r);
  }

  lemma PermitTaken(o: Options, i: nat, reqs: seq<Request>, w: Req)
    requires w < |reqs| && reqs[w].phase == PermitWaiting && ShardOf(o, reqs[w].key) == i
    ensures var after := reqs[w := reqs[w].(phase := PermitGranted)];
            Sum(o, Permits(i), after) == Sum(o, Permits(i), reqs) + 1 &&
            Sum(o, Queue(i), after) == Sum(o, Queue(i), reqs) - 1 &&
            Sum(o, Admitted(i), after) == Sum(o, Admitted(i), reqs) &&
            Sum(o, Probes(i), after) == Sum(o, Probes(i), reqs)
  {
    hide Sum;
    ShardSumsUpdate(o, i, reqs, w, reqs[w].(phase := PermitGranted));
  }

  lemma PermitReturned(o: Options, i: nat, reqs: seq<Request>, r: Req)
    requires r < |reqs| && reqs[r].phase == Calling && ShardOf(o, reqs[r].key) == i
    ensures var after := reqs[r := reqs[r].(phase := Unwinding)];
            Sum(o, Permits(i), after) == Sum(o, Permits(i), reqs) - 1 &&
            Sum(o, Queue(i), after) == Sum(o, Queue(i), reqs) &&
            Sum(o, Admitted(i), after) == Sum(o, Admitted(i), reqs) &&
            Sum(o, Probes(i), after) == Sum(o, Probes(i), reqs)
  {
    hide Sum;
    ShardSumsUpdate(o, i, reqs, r, reqs[r].(phase := Unwinding));
  }

  lemma HeadLeaves(o: Options, s: State, t: State, i: nat, r: Req)
    requires HandOver(o, s, t, i, r)
    ensures PermitQueueOk(o, t, i)
  {
    var queue := s.shards[i].waiters;
    assert ShardOk(o, s, i);
    assert queue == [queue[0]] + queue[1..];
    assert queue[0] !in queue[1..] && Distinct(queue[1..]);
    forall x: Req
      ensures x in queue[1..] <==> x < |t.requests| && Counted(o, Queue(i), t.requests[x])
    {
      assert x in queue <==> x < |s.requests| && Counted(o, Queue(i), s.requests[x]);
    }
  }

  lemma HandOverCircuit(o: Options, s: State, t: State, i: nat, r: Req)
    requires HandOver(o, s, t, i, r)
    ensures CircuitOk(o, t, i)
  {
    HandOverSums(o, s, t, i, r);
    assert ShardOk(o, s, i);
    var queue := s.shards[i].waiters;
    assert queue == [queue[0]] + queue[1..];
    forall x: Req | x in t.shards[i].waiters && x < |t.requests| && t.shards[i].openedAt.Some?
      ensures t.requests[x].probe
    {
      assert x in queue;
    }
  }

  lemma GiveBackKeeps(o: Options, s: State, r: Req)
    requires Inv(o, s) && At(s, r, Calling)
    ensures Inv(o, GiveBack(o, s, r))
  {
    hide ShardOk, LockOk;
    var t := GiveBack(o, s, r);
    var i := ShardOf(o, s.requests[r].key);
    GiveBackKeepsShards(o, s, r);
    NoneAborted(o, s, i);
    if s.shards[i].waiters != [] {
      QueuedRequest(o, s, i, s.shards[i].waiters[0]);
    }
    AllLocksKept(o, s, t);
    FifoKept(s, t);
    SameIdle(s, t);
    StageKept(s, t);
  }

  lemma SettleKeeps(o: Options, s: State, r: Req, outcome: Outcome, now: int)
    requires Inv(o, s) && At(s, r, Calling)
    ensures Inv(o, Settle(o, s, r, outcome, now))
  {
    hide ShardOk, LockOk, Record;
    var i := ShardOf(o, s.requests[r].key);
    SettleIsGiveBack(o, s, r, outcome, now);
    RecordKeeps(o, s, i, outcome, now);
    GiveBackKeeps(o, Record(o, s, i, outcome, now), r);
  }

  lemma SettleIsGiveBack(o: Options, s: State, r: Req, outcome: Outcome, now: int)
    requires Inv(o, s) && At(s, r, Calling)
    ensures var u := Record(o, s, ShardOf(o, s.requests[r].key), outcome, now);
            Shaped(o, u) && At(u, r, Calling) && Settle(o, s, r, outcome, now) == GiveBack(o, u, r)
  {
    RecordMoves(o, s, ShardOf(o, s.requests[r].key), outcome, now, r);
  }
}
