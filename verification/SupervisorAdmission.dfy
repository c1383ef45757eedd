/** Who gets in: admission, circuit, permits and signals in terms of the requests and of what has happened to
    them, without reference to how the steps are computed. */
module SupervisorAdmission {
  import opened SupervisorModel
  import opened SupervisorInvariant
  import opened SupervisorSteps
  import opened SupervisorTheorems
  import opened Wrappers

  // ---------------------------------------------------------------- arrivals

  ghost predicate LiveProbe(o: Options, s: State, i: nat) {
    exists r :: 0 <= r < |s.requests| && s.requests[r].probe && IsLive(o, i, s.requests[r])
  }

  predicate IsLive(o: Options, i: nat, q: Request) { o.hash(q.key) % o.shardCount == i && q.phase != Done }

  /** A closed circuit lets everybody through, an open one a single probe once its cooldown has passed. */
  ghost predicate CircuitLetsIn(o: Options, s: State, i: nat, now: int)
    requires i < |s.shards|
  {
    var openedAt := s.shards[i].openedAt;
    openedAt.None? || (now - openedAt.value >= o.cooldown && !LiveProbe(o, s, i))
  }

  ghost predicate HasRoom(o: Options, s: State, i: nat)
    requires i < |s.shards|
  {
    s.shards[i].admitted < o.maxInflight + o.maxQueue
  }

  lemma ProbeFlagIs(o: Options, s: State, i: nat)
    requires Reachable(o, s) && Shaped(o, s) && i < o.shardCount
    ensures s.shards[i].halfOpenProbe <==> LiveProbe(o, s, i)
  {
    CircuitIsConsistent(o, s, i);
    forall r | 0 <= r < |s.requests|
      ensures Counted(o, Probes(i), s.requests[r]) <==> s.requests[r].probe && IsLive(o, i, s.requests[r])
    {
    }
  }

  /** An arrival adds a request exactly if the supervisor is open, the signal has not fired, the circuit lets it in
      and its shard has room; the request is a probe exactly if the circuit is open. Otherwise nothing changes. */
  lemma AdmissionIs(o: Options, s: State, k: Key, aborted: bool, now: int)
    requires Reachable(o, s) && Shaped(o, s)
    ensures var i := o.hash(k) % o.shardCount; var t := Arrive(o, s, k, aborted, now);
            if s.stage.Open? && !aborted && CircuitLetsIn(o, s, i, now) && HasRoom(o, s, i)
            then |t.requests| == |s.requests| + 1 && t.requests[..|s.requests|] == s.requests &&
                 Newcomer(k, s.shards[i].openedAt.Some?, t.requests[|s.requests|])
            else t == s
  {
    ProbeFlagIs(o, s, ShardOf(o, k));
  }

  predicate Newcomer(k: Key, probe: bool, q: Request) {
    q.key == k && q.probe == probe && !q.aborted && q.phase in {LockGranted, LockWaiting}
  }

  // ---------------------------------------------------------------- the circuit over a run

  /** The request whose backend call ends in this step belongs to shard i. */
  ghost predicate SettlesIn(o: Options, s: State, step: Step, i: nat) {
    step.StepSettle? && step.r < |s.requests| && o.hash(s.requests[step.r].key) % o.shardCount == i
  }

  /** Health failures of shard i since its last success, in the first n steps. Other failures do not count. */
  ghost function Failures(o: Options, states: seq<State>, steps: seq<Step>, n: nat, i: nat): nat
    requires n <= |steps| < |states|
  {
    if n == 0 then 0
    else
      var before, step := Failures(o, states, steps, n - 1, i), steps[n - 1];
      if !SettlesIn(o, states[n - 1], step, i) then before
      else if step.outcome.Success? then 0
      else if step.outcome.HealthFailure? then before + 1
      else before
  }

  /** When the last of them was reported. */
  ghost function LastFailure(o: Options, states: seq<State>, steps: seq<Step>, n: nat, i: nat): int
    requires n <= |steps| < |states|
  {
    if n == 0 then 0
    else if SettlesIn(o, states[n - 1], steps[n - 1], i) && steps[n - 1].outcome.HealthFailure? then steps[n - 1].now
    else LastFailure(o, states, steps, n - 1, i)
  }

  /** The circuit of a shard is open exactly while its backend has failed the threshold number of times in a row,
      and then since the last of these failures. */
  lemma {:induction false} CircuitFollowsRun(o: Options, states: seq<State>, steps: seq<Step>, n: nat, i: nat)
    requires Run(o, states, steps) && n < |states| && i < o.shardCount
    ensures i < |states[n].shards|
    ensures states[n].shards[i].consecutiveFailures == Failures(o, states, steps, n, i)
    ensures states[n].shards[i].openedAt ==
              if Failures(o, states, steps, n, i) >= o.failureThreshold then Some(LastFailure(o, states, steps, n, i))
              else None
    decreases n
  {
    hide Inv, Next, Enabled;
    RunIsSafe(o, states, steps, n);
    if n == 0 {
    } else {
      CircuitFollowsRun(o, states, steps, n - 1, i);
      RunIsSafe(o, states, steps, n - 1);
      CircuitMoves(o, states[n - 1], steps[n - 1], i);
    }
  }

  lemma CircuitMoves(o: Options, s: State, step: Step, i: nat)
    requires Inv(o, s) && Enabled(o, s, step) && i < o.shardCount
    ensures var a, t := s.shards[i], Next(o, s, step);
            i < |t.shards| && var b := t.shards[i];
            if !SettlesIn(o, s, step, i) || step.outcome.OtherFailure?
            then b.consecutiveFailures == a.consecutiveFailures && b.openedAt == a.openedAt
            else if step.outcome.Success? then b.consecutiveFailures == 0 && b.openedAt.None?
            else b.consecutiveFailures == a.consecutiveFailures + 1 &&
                 b.openedAt == if b.consecutiveFailures >= o.failureThreshold then Some(step.now) else a.openedAt
  {
    hide Inv, Settle;
    if step.StepSettle? {
      SettleMoves(o, s, step.r, step.outcome, step.now, i);
    } else {
      CircuitKept(o, s, step, i);
    }
  }

  lemma CircuitKept(o: Options, s: State, step: Step, i: nat)
    requires Inv(o, s) && Enabled(o, s, step) && i < o.shardCount && !step.StepSettle?
    ensures var a, t := s.shards[i], Next(o, s, step);
            i < |t.shards| && t.shards[i].consecutiveFailures == a.consecutiveFailures &&
            t.shards[i].openedAt == a.openedAt
  {
    hide Inv, ShardOf, Capacity, LockFor, Enter, Without, TurnAway, EmptyLockQueues, AllIdle, ReleaseLock, Leave;
    match step
    case StepArrive(_, _, _) =>
    case StepResume(_) =>
    case StepBegin(_, _) =>
    case StepUnwind(_) =>
    case StepFinish(_) =>
    case StepAbort(_) =>
    case StepStartup(_, _) =>
    case StepClose =>
    case StepDrainTimeout =>
    case StepResumeClose =>
  }

  lemma SettleMoves(o: Options, s: State, r: Req, outcome: Outcome, now: int, i: nat)
    requires Shaped(o, s) && At(s, r, Calling) && i < o.shardCount
    ensures var a, t := s.shards[i], Settle(o, s, r, outcome, now);
            i < |t.shards| && var b := t.shards[i];
            if ShardOf(o, s.requests[r].key) != i || outcome.OtherFailure?
            then b.consecutiveFailures == a.consecutiveFailures && b.openedAt == a.openedAt
            else if outcome.Success? then b.consecutiveFailures == 0 && b.openedAt.None?
            else b.consecutiveFailures == a.consecutiveFailures + 1 &&
                 b.openedAt == if b.consecutiveFailures >= o.failureThreshold then Some(now) else a.openedAt
  {
    hide SkipAborted, EnterAll, Enter, ReleasePermit;
    var j := ShardOf(o, s.requests[r].key);
    ReleaseFrame(o, Record(o, s, j, outcome, now), j, i);
  }

  /** Giving back a permit leaves the circuit alone, and every shard but its own. */
  lemma ReleaseFrame(o: Options, s: State, j: nat, i: nat)
    requires Shaped(o, s) && j < o.shardCount && i < o.shardCount
    ensures var t := ReleasePermit(o, s, j);
            |t.shards| == |s.shards| && |t.requests| == |s.requests| &&
            t.shards[i].consecutiveFailures == s.shards[i].consecutiveFailures &&
            t.shards[i].openedAt == s.shards[i].openedAt && (i != j ==> t.shards[i] == s.shards[i])
  {
    hide SkipAborted, Enter;
  }

  // ---------------------------------------------------------------- permits and signals

  /** With the lock in hand a request gives up if the supervisor is closing, its signal has fired, or the circuit is
      open and it is no probe; otherwise it gets a permit if fewer than the maximum are out, and else queues last. */
  lemma ResumeIs(o: Options, s: State, r: Req)
    requires Reachable(o, s) && Shaped(o, s) && At(s, r, LockGranted)
    ensures var q, t := s.requests[r], Resume(o, s, r);
            var i := o.hash(q.key) % o.shardCount;
            var phase := if !s.stage.Open? || q.aborted || (!q.probe && s.shards[i].openedAt.Some?) then Unwinding
                         else if Sum(o, Permits(i), s.requests) < o.maxInflight then PermitGranted
                         else PermitWaiting;
            t.requests == s.requests[r := q.(phase := phase)] && t.locks == s.locks && t.stage == s.stage &&
            |t.shards| == |s.shards| && t.shards[i].waiters ==
              if phase == PermitWaiting then s.shards[i].waiters + [r] else s.shards[i].waiters
  {
    var i := ShardOf(o, s.requests[r].key);
    ReachableIsSafe(o, s);
    DeadBranches(o, s);
    assert ShardOk(o, s, i);
    hide Inv, Sum, SkipAborted;
  }

  /** A signal is remembered, and takes its request out of any queue; nobody else is touched. */
  lemma AbortIs(o: Options, s: State, r: Req)
    requires Reachable(o, s) && Shaped(o, s) && r < |s.requests|
    ensures var q, t := s.requests[r], Abort(o, s, r);
            var phase := if q.phase == LockWaiting then LockRefused else if q.phase == PermitWaiting then Unwinding
                         else q.phase;
            t.requests == s.requests[r := q.(phase := phase, aborted := true)] && t.stage == s.stage
  {
    ReachableIsSafe(o, s);
    assert LockOk(o, s, s.requests[r].key);
    hide Inv, Sum, Without;
  }

  predicate DropsAt(before: seq<Req>, after: seq<Req>, n: nat, r: Req)
    requires n < |before|
  {
    before[n] == r && after == before[..n] + before[n + 1..]
  }

  /** How the permit queue of a shard can change in one step: a newcomer at its end, its first request with the
      permit just given back, one request whose signal fired, or all of them turned away. */
  ghost predicate QueueMoves(s: State, t: State, step: Step, i: nat)
    requires i < |s.shards| && i < |t.shards|
  {
    var before, after := s.shards[i].waiters, t.shards[i].waiters;
    || after == before
    || (step.StepResume? && after == before + [step.r])
    || (step.StepSettle? && before != [] && after == before[1..] && At(t, before[0], PermitGranted))
    || (step.StepAbort? && exists n :: 0 <= n < |before| && DropsAt(before, after, n, step.r))
    || (after == [] && forall x :: x in before ==> At(t, x, Unwinding))
  }

  lemma PermitQueueMoves(o: Options, s: State, step: Step, i: nat)
    requires Reachable(o, s) && Enabled(o, s, step) && i < o.shardCount
    ensures |Next(o, s, step).shards| == o.shardCount && QueueMoves(s, Next(o, s, step), step, i)
  {
    ReachableIsSafe(o, s);
    assert ShardOk(o, s, i);
    hide Inv, ShardOk, Settle, CircuitOk;
    match step
    case StepSettle(r, outcome, now) => SettleQueue(o, s, r, outcome, now, i);
    case StepClose => CloseQueue(o, s, i);
    case StepAbort(r) => AbortQueue(o, s, r, i);
    case StepArrive(_, _, _) =>
    case StepResume(_) =>
    case StepBegin(_, _) =>
    case StepUnwind(_) =>
    case StepFinish(_) =>
    case StepStartup(_, _) =>
    case StepDrainTimeout =>
    case StepResumeClose =>
  }

  /** Everybody in a permit queue is suspended there, and no signal has fired. */
  lemma QueueIsWaiting(o: Options, s: State, i: nat)
    requires Reachable(o, s) && Shaped(o, s) && i < o.shardCount
    ensures SkipAborted(s.requests, s.shards[i].waiters) == s.shards[i].waiters
    ensures s.shards[i].waiters != [] ==> s.stage.Open?
    ensures forall x :: x in s.shards[i].waiters ==> At(s, x, PermitWaiting)
    ensures Distinct(s.shards[i].waiters)
  {
    ReachableIsSafe(o, s);
    NoneAborted(o, s, i);
    assert ShardOk(o, s, i);
  }

  lemma SettleQueue(o: Options, s: State, r: Req, outcome: Outcome, now: int, i: nat)
    requires Reachable(o, s) && Shaped(o, s) && At(s, r, Calling) && i < o.shardCount
    ensures var t := Settle(o, s, r, outcome, now);
            |t.shards| == |s.shards| && QueueMoves(s, t, StepSettle(r, outcome, now), i)
  {
    QueueIsWaiting(o, s, i);
    hide Reachable, Record, ReleasePermit, SkipAborted, Distinct, ShardOf;
    var before, j := s.shards[i].waiters, ShardOf(o, s.requests[r].key);
    assert before != [] ==> before[0] in before;
    var recorded := Record(o, s, j, outcome, now);
    var released := ReleasePermit(o, recorded, j);
    RecordQueue(o, s, j, outcome, now, i);
    ReleaseFrame(o, recorded, j, i);
    if j == i {
      ReleaseQueue(o, recorded, i);
    }
    forall x | x in before
      ensures x != r
    {
      assert At(s, x, PermitWaiting);
    }
    assert Settle(o, s, r, outcome, now) == released.(requests := Enter(released.requests, r, Unwinding));
  }

  /** The bookkeeping leaves a queue alone, or turns everybody in it away. */
  lemma RecordQueue(o: Options, s: State, j: nat, outcome: Outcome, now: int, i: nat)
    requires Shaped(o, s) && j < o.shardCount && i < o.shardCount
    requires forall x :: x in s.shards[i].waiters ==> At(s, x, PermitWaiting)
    ensures var t := Record(o, s, j, outcome, now);
            |t.shards| == |s.shards| && |t.requests| == |s.requests| && t.stage == s.stage &&
            (i != j ==> t.shards[i] == s.shards[i]) &&
            ((t.shards[i].waiters == s.shards[i].waiters && (i == j ==> t.requests == s.requests)) ||
             (i == j && t.shards[i].waiters == [] && forall x :: x in s.shards[i].waiters ==> At(t, x, Unwinding)))
  {
    hide Enter;
  }

  lemma ReleaseQueue(o: Options, s: State, i: nat)
    requires Shaped(o, s) && i < o.shardCount
    requires s.shards[i].waiters != [] ==>
               s.stage.Open? && SkipAborted(s.requests, s.shards[i].waiters) == s.shards[i].waiters &&
               s.shards[i].waiters[0] < |s.requests|
    ensures var before, t := s.shards[i].waiters, ReleasePermit(o, s, i);
            |t.shards| == |s.shards| &&
            if before == [] then t.shards[i].waiters == [] && t.requests == s.requests
            else t.shards[i].waiters == before[1..] && At(t, before[0], PermitGranted)
  {
    assert SkipAborted(s.requests, []) == [];
    hide SkipAborted;
  }

  lemma CloseQueue(o: Options, s: State, i: nat)
    requires Reachable(o, s) && Shaped(o, s) && i < o.shardCount
    ensures var t := Close(s); |t.shards| == |s.shards| && QueueMoves(s, t, StepClose, i)
  {
    QueueIsWaiting(o, s, i);
    hide Reachable, SkipAborted, Distinct, EmptyLockQueues;
    forall x | x in s.shards[i].waiters
      ensures Queued(s, x)
    {
    }
  }

  lemma AbortQueue(o: Options, s: State, r: Req, i: nat)
    requires Reachable(o, s) && Shaped(o, s) && r < |s.requests| && i < o.shardCount
    ensures var t := Abort(o, s, r); |t.shards| == |s.shards| && QueueMoves(s, t, StepAbort(r), i)
  {
    QueueIsWaiting(o, s, i);
    ReachableIsSafe(o, s);
    assert ShardOk(o, s, i);
    hide Inv, Reachable, SkipAborted, Distinct, Without, Sum;
    var n := WithoutIs(s.shards[i].waiters, r);
    if n < |s.shards[i].waiters| {
      assert DropsAt(s.shards[i].waiters, Without(s.shards[i].waiters, r), n, r);
    }
  }

  lemma {:induction false} WithoutIs(queue: seq<Req>, r: Req) returns (n: nat)
    ensures n <= |queue| && forall k :: 0 <= k < n ==> queue[k] != r
    ensures if n == |queue| then Without(queue, r) == queue else DropsAt(queue, Without(queue, r), n, r)
    decreases |queue|
  {
    n := 0;
    if queue != [] && queue[0] != r {
      var rest := queue[1..];
      var m := WithoutIs(rest, r);
      n := m + 1;
      assert Without(queue, r) == [queue[0]] + Without(rest, r);
      hide Without;
      assert queue == [queue[0]] + rest;
      assert m < |rest| ==> queue[..n] + queue[n + 1..] == [queue[0]] + (rest[..m] + rest[m + 1..]);
    }
  }

  // ---------------------------------------------------------------- backends

  /** When the wait of close is over, drained or not, every backend is shut down once and every start is marked. */
  lemma ResumeCloseIs(o: Options, s: State, i: nat)
    requires Reachable(o, s) && Shaped(o, s) && s.stage.DrainSettled? && i < o.shardCount
    ensures var t := ResumeClose(s);
            t.stage == Closed(!s.stage.drained) && t.requests == s.requests && |t.shards| == |s.shards| &&
            (t.shards[i].backend ==> t.shards[i].shutdowns == 1) &&
            (t.shards[i].starting ==> t.shards[i].closeOnStart) &&
            t.shards[i].backend == s.shards[i].backend && t.shards[i].starting == s.shards[i].starting
  {
    ReachableIsSafe(o, s);
    assert ShutdownOk(s, s.shards[i]);
  }

  /** A start that succeeds leaves a backend, shut down at once if that was asked for; one that fails leaves none. */
  lemma StartupIs(o: Options, s: State, i: nat, ok: bool)
    requires Reachable(o, s) && Shaped(o, s) && i < o.shardCount && s.shards[i].starting
    ensures var t := Startup(s, i, ok);
            |t.shards| == |s.shards| && t.requests == s.requests && t.stage == s.stage &&
            !t.shards[i].starting && t.shards[i].backend == ok &&
            t.shards[i].shutdowns == if ok && s.shards[i].closeOnStart then 1 else 0
  {
    ReachableIsSafe(o, s);
    assert ShutdownOk(s, s.shards[i]);
  }

  /** A request with a permit finds a backend, or one that is being started, unless starting one fails. */
  lemma BeginIs(o: Options, s: State, r: Req, factoryThrows: bool)
    requires Reachable(o, s) && Shaped(o, s) && At(s, r, PermitGranted)
    ensures var t := Begin(o, s, r, factoryThrows); var i := o.hash(s.requests[r].key) % o.shardCount;
            |t.shards| == |s.shards| && t.shards[i].backend == s.shards[i].backend &&
            (t.shards[i].backend || t.shards[i].starting || factoryThrows) &&
            (t.shards[i].starting ==> !t.shards[i].backend && (s.shards[i].starting || !factoryThrows)) &&
            t.requests == s.requests[r := s.requests[r].(phase := Calling)]
  {
    ReachableIsSafe(o, s);
    assert ShutdownOk(s, s.shards[ShardOf(o, s.requests[r].key)]);
  }
}
