/** Nothing gets stuck: some request can always go on, and the work a run can do is bounded. */
module SupervisorProgress {
  import opened SupervisorModel
  import opened SupervisorInvariant
  import opened SupervisorSteps
  import opened SupervisorLockSteps
  import opened SupervisorTheorems

  /** The steps requests take by themselves; Settle is one of them because backend calls return. */
  predicate IsProgress(step: Step) {
    step.StepResume? || step.StepBegin? || step.StepSettle? || step.StepUnwind? || step.StepFinish?
  }

  // ---------------------------------------------------------------- no deadlock

  /** A request that is not queued can go on by itself. */
  function OwnStep(s: State, r: Req): (step: Step)
    requires r < |s.requests| && !IsWaiting(s.requests[r].phase) && s.requests[r].phase != Done
    ensures IsProgress(step)
  {
    match s.requests[r].phase
    case LockGranted => StepResume(r)
    case PermitGranted => StepBegin(r, false)
    case Calling => StepSettle(r, OtherFailure, 0)
    case Finishing => StepFinish(r)
    case _ => StepUnwind(r)
  }

  lemma OwnStepEnabled(o: Options, s: State, r: Req)
    requires Inv(o, s) && r < |s.requests| && !IsWaiting(s.requests[r].phase) && s.requests[r].phase != Done
    ensures Enabled(o, s, OwnStep(s, r))
  {
    hide ShardOk, LockOk;
    if UsesLock(s.requests[r].phase) {
      UserHasEntry(o, s, r);
    }
  }

  /** Behind every queued permit there is a request that holds one. */
  lemma PermitHolderExists(o: Options, s: State, r: Req) returns (holder: Req)
    requires ShardsOk(o, s) && At(s, r, PermitWaiting)
    ensures holder < |s.requests| && HoldsPermit(s.requests[holder].phase)
  {
    var i := ShardOf(o, s.requests[r].key);
    assert ShardOk(o, s, i);
    hide Sum;
    assert r in s.shards[i].waiters;
    holder := SumFinds(o, Permits(i), s.requests);
  }

  lemma LockOwnerExists(o: Options, s: State, r: Req) returns (owner: Req)
    requires LocksOk(o, s) && At(s, r, LockWaiting)
    ensures owner < |s.requests| && OwnsLock(s.requests[owner].phase) && s.requests[owner].key == s.requests[r].key
  {
    var k := s.requests[r].key;
    assert LockOk(o, s, k) && LockQueueOk(s, k);
    hide Sum;
    assert r in s.locks[k].waiters;
    owner := SumFinds(o, Owners(k), s.requests);
  }

  /** Locks and permits never deadlock: while any request is live, some request can go on. */
  lemma NoDeadlock(o: Options, s: State, r: Req) returns (step: Step)
    requires Inv(o, s) && r < |s.requests| && s.requests[r].phase != Done
    ensures IsProgress(step) && Enabled(o, s, step)
  {
    hide ShardOk, LockOk, FifoOk, HeldOk, WaitersOk, StageOk, OwnStep, Enabled;
    var mover := r;
    if s.requests[mover].phase == LockWaiting {
      mover := LockOwnerExists(o, s, mover);
    }
    if s.requests[mover].phase == PermitWaiting {
      mover := PermitHolderExists(o, s, mover);
    }
    OwnStepEnabled(o, s, mover);
    step := OwnStep(s, mover);
  }

  // ---------------------------------------------------------------- bounded work

  /** How many steps a request can still take. */
  function Rank(p: Phase): (n: nat)
    ensures n <= 7
  {
    match p
    case LockWaiting => 7
    case LockGranted => 6
    case PermitWaiting => 5
    case PermitGranted => 4
    case Calling => 3
    case Unwinding => 2
    case LockRefused => 2
    case Finishing => 1
    case Done => 0
  }

  function Work(reqs: seq<Request>): nat {
    if reqs == [] then 0 else Work(reqs[..|reqs| - 1]) + Rank(reqs[|reqs| - 1].phase)
  }

  lemma {:induction false} WorkFalls(a: seq<Request>, b: seq<Request>)
    requires |a| == |b| && forall x :: 0 <= x < |a| ==> Rank(b[x].phase) <= Rank(a[x].phase)
    ensures Work(b) <= Work(a)
    ensures (exists x :: 0 <= x < |a| && Rank(b[x].phase) < Rank(a[x].phase)) ==> Work(b) < Work(a)
  {
    if a != [] {
      var last := |a| - 1;
      WorkFalls(a[..last], b[..last]);
      forall x | 0 <= x < last && Rank(b[x].phase) < Rank(a[x].phase)
        ensures Work(b) < Work(a)
      {
        assert Rank(b[..last][x].phase) < Rank(a[..last][x].phase);
      }
    }
  }

  /** The request that takes a progress step. */
  function Actor(step: Step): Req
    requires IsProgress(step)
  {
    step.r
  }

  lemma SettleMoves(o: Options, s: State, r: Req, outcome: Outcome, now: int, x: Req)
    requires Inv(o, s) && At(s, r, Calling) && x < |s.requests|
    ensures |Settle(o, s, r, outcome, now).requests| == |s.requests|
    ensures var p, q := s.requests[x].phase, Settle(o, s, r, outcome, now).requests[x].phase;
            if x == r then q == Unwinding else q == p || (p == PermitWaiting && (q == PermitGranted || q == Unwinding))
  {
    hide ShardOk, LockOk, Record;
    var i := ShardOf(o, s.requests[r].key);
    var u := Record(o, s, i, outcome, now);
    SettleIsGiveBack(o, s, r, outcome, now);
    RecordKeeps(o, s, i, outcome, now);
    RecordFrame(o, s, i, outcome, now);
    RecordMoves(o, s, i, outcome, now, x);
    NoneAborted(o, u, i);
    if u.shards[i].waiters != [] {
      QueuedRequest(o, u, i, u.shards[i].waiters[0]);
    }
  }

  lemma ProgressMoves(o: Options, s: State, step: Step, x: Req)
    requires Inv(o, s) && IsProgress(step) && Enabled(o, s, step) && x < |s.requests|
    ensures |Next(o, s, step).requests| == |s.requests| && Actor(step) < |s.requests|
    ensures Rank(Next(o, s, step).requests[x].phase) <= Rank(s.requests[x].phase)
    ensures x == Actor(step) ==> Rank(Next(o, s, step).requests[x].phase) < Rank(s.requests[x].phase)
  {
    hide ShardOk, LockOk, Settle, Unwind, FifoOk, HeldOk, StageOk;
    match step
    case StepSettle(r, outcome, now) => SettleMoves(o, s, r, outcome, now, x);
    case StepUnwind(r) => {
      UnwindMoves(o, s, r, x);
      UnwindFrame(s, r);
    }
    case _ =>
  }

  /** Every progress step uses up some of the remaining work. */
  lemma ProgressUsesWork(o: Options, s: State, step: Step)
    requires Inv(o, s) && IsProgress(step) && Enabled(o, s, step)
    ensures Work(Next(o, s, step).requests) < Work(s.requests)
  {
    hide Inv, Enabled, Next, Rank;
    var t := Next(o, s, step);
    ActorExists(o, s, step);
    forall x | 0 <= x < |s.requests|
      ensures |t.requests| == |s.requests| && Rank(t.requests[x].phase) <= Rank(s.requests[x].phase)
    {
      ProgressMoves(o, s, step, x);
    }
    ProgressMoves(o, s, step, Actor(step));
    WorkFalls(s.requests, t.requests);
  }

  lemma ActorExists(o: Options, s: State, step: Step)
    requires IsProgress(step) && Enabled(o, s, step)
    ensures Actor(step) < |s.requests|
  {}

  /** Only arrivals bring work, at most 7 steps each. */
  lemma OtherStepsBringLittle(o: Options, s: State, step: Step)
    requires Inv(o, s) && Enabled(o, s, step)
    ensures Work(Next(o, s, step).requests) <= Work(s.requests) + if step.StepArrive? then 7 else 0
  {
    hide ShardOk, LockOk, FifoOk, HeldOk, WaitersOk, StageOk;
    if IsProgress(step) {
      ProgressUsesWork(o, s, step);
    } else {
      match step
      case StepArrive(k, aborted, now) =>
        var t := Arrive(o, s, k, aborted, now);
        if t != s {
          assert t.requests[..|s.requests|] == s.requests;
        }
      case StepAbort(r) => WorkFalls(s.requests, Abort(o, s, r).requests);
      case StepClose => ClosingBringsNothing(o, s);
      case _ =>
    }
  }

  lemma ClosingBringsNothing(o: Options, s: State)
    requires Inv(o, s)
    ensures Work(Close(s).requests) <= Work(s.requests)
  {
    hide ShardOk, LockOk, FifoOk, HeldOk, WaitersOk, StageOk, TurnAway;
    if s.stage.Open? {
      assert Close(s).requests == TurnAway(s);
      forall x | 0 <= x < |s.requests|
        ensures Rank(TurnAway(s)[x].phase) <= Rank(s.requests[x].phase)
      {
        TurnAwayMoves(o, s, x);
      }
      WorkFalls(s.requests, TurnAway(s));
    }
  }

  function ProgressSteps(steps: seq<Step>): nat {
    if steps == [] then 0 else ProgressSteps(steps[..|steps| - 1]) + if IsProgress(steps[|steps| - 1]) then 1 else 0
  }

  function Arrivals(steps: seq<Step>): nat {
    if steps == [] then 0 else Arrivals(steps[..|steps| - 1]) + if steps[|steps| - 1].StepArrive? then 1 else 0
  }

  /** In every run the requests take at most 7 steps per arrival: nobody spins. */
  lemma {:induction false} WorkIsBounded(o: Options, states: seq<State>, steps: seq<Step>)
    requires Run(o, states, steps)
    ensures ProgressSteps(steps) + Work(states[|states| - 1].requests) <= 7 * Arrivals(steps)
    decreases |steps|
  {
    hide Inv, Enabled, Next, Work, Rank;
    if steps == [] {
      assert states[0] == Init(o);
      NoWorkAtFirst(o);
    } else {
      var last := |steps| - 1;
      WorkIsBounded(o, states[..|states| - 1], steps[..last]);
      RunIsSafe(o, states, steps, last);
      assert Enabled(o, states[last], steps[last]) && states[last + 1] == Next(o, states[last], steps[last]);
      OtherStepsBringLittle(o, states[last], steps[last]);
      if IsProgress(steps[last]) {
        ProgressUsesWork(o, states[last], steps[last]);
      }
    }
  }

  lemma NoWorkAtFirst(o: Options)
    ensures Work(Init(o).requests) == 0
  {}

  // ---------------------------------------------------------------- draining

  /** `steps` lead from s to t. */
  ghost predicate Leads(o: Options, s: State, steps: seq<Step>, t: State)
    decreases |steps|
  {
    if steps == [] then s == t
    else Enabled(o, s, steps[0]) && Leads(o, Next(o, s, steps[0]), steps[1..], t)
  }

  lemma NobodyLive(o: Options, s: State)
    requires ShardsOk(o, s) && forall r :: 0 <= r < |s.requests| ==> s.requests[r].phase == Done
    ensures AllIdle(s.shards)
  {
    forall i | 0 <= i < |s.shards|
      ensures s.shards[i].admitted == 0
    {
      assert ShardOk(o, s, i);
      SumNone(o, Admitted(i), s.requests);
    }
  }

  /** From every reachable state the requests can finish by themselves, within the remaining work; any
      such sequence of steps is equally short, because each of them uses up work. */
  lemma {:induction false} AlwaysDrains(o: Options, s: State) returns (steps: seq<Step>, t: State)
    requires Inv(o, s)
    ensures Leads(o, s, steps, t) && |steps| <= Work(s.requests)
    ensures forall n :: 0 <= n < |steps| ==> IsProgress(steps[n])
    ensures Inv(o, t) && AllIdle(t.shards)
    ensures t.stage == s.stage || (s.stage.Draining? && t.stage == DrainSettled(true))
    decreases Work(s.requests)
  {
    hide ShardOk, LockOk, FifoOk, HeldOk, WaitersOk, StageOk, Next, Enabled, AllIdle, Work;
    if forall r :: 0 <= r < |s.requests| ==> s.requests[r].phase == Done {
      NobodyLive(o, s);
      steps, t := [], s;
    } else {
      var r :| 0 <= r < |s.requests| && s.requests[r].phase != Done;
      var step := NoDeadlock(o, s, r);
      var next := Next(o, s, step);
      NextKeeps(o, s, step);
      ProgressUsesWork(o, s, step);
      ProgressKeepsStage(o, s, step);
      var rest, last := AlwaysDrains(o, next);
      steps, t := [step] + rest, last;
      assert steps[1..] == rest;
    }
  }

  lemma ProgressKeepsStage(o: Options, s: State, step: Step)
    requires Inv(o, s) && IsProgress(step) && Enabled(o, s, step)
    ensures var t := Next(o, s, step); t.stage == s.stage || (s.stage.Draining? && t.stage == DrainSettled(true))
  {}

  /** A close that is waiting for requests ends by itself, and does not time out, if they all return. */
  lemma CloseCompletes(o: Options, s: State) returns (steps: seq<Step>, t: State)
    requires Reachable(o, s) && s.stage.Draining?
    ensures Leads(o, s, steps, t) && |steps| <= Work(s.requests)
    ensures forall n :: 0 <= n < |steps| ==> IsProgress(steps[n])
    ensures t.stage == DrainSettled(true) && AllIdle(t.shards)
  {
    hide ShardOk, LockOk, Next, Enabled, AllIdle, Work;
    ReachableIsSafe(o, s);
    steps, t := AlwaysDrains(o, s);
  }

  // ---------------------------------------------------------------- closing

  /** After close no queue holds anybody, and nobody is admitted any more. */
  lemma ClosedToNewcomers(o: Options, s: State)
    requires Reachable(o, s) && Shaped(o, s) && !s.stage.Open?
    ensures forall i :: 0 <= i < o.shardCount ==> s.shards[i].waiters == []
    ensures forall k :: k in s.locks ==> s.locks[k].waiters == []
    ensures forall k, aborted, now :: Arrive(o, s, k, aborted, now) == s
  {
    ReachableIsSafe(o, s);
    hide Sum;
    forall i | 0 <= i < o.shardCount
      ensures s.shards[i].waiters == []
    {
      hide ShardOk, LockOk;
      NoneAborted(o, s, i);
    }
    forall k | k in s.locks
      ensures s.locks[k].waiters == []
    {
      hide ShardOk, LockOk;
      NoneAbortedInLock(o, s, k);
    }
  }

  /** Backends are shut down at most once, only when they exist, only by a close that has stopped waiting,
      and under live requests only if that close reports a drain timeout. */
  lemma ShutdownIsSafe(o: Options, s: State, i: nat)
    requires Reachable(o, s) && i < |s.shards|
    ensures s.shards[i].shutdowns <= 1
    ensures s.shards[i].shutdowns == 1 ==>
              s.shards[i].backend && s.stage.Closed? && (AllIdle(s.shards) || s.stage.timedOut)
    ensures s.stage == Closed(false) ==>
              AllIdle(s.shards) && (s.shards[i].backend ==> s.shards[i].shutdowns == 1) &&
              forall r :: 0 <= r < |s.requests| ==> s.requests[r].phase == Done
  {
    hide ShardOk, LockOk;
    ReachableIsSafe(o, s);
    assert ShutdownOk(s, s.shards[i]);
    if s.stage == Closed(false) {
      forall r | 0 <= r < |s.requests|
        ensures s.requests[r].phase == Done
      {
        if s.requests[r].phase != Done {
          LiveIsNotIdle(o, s, r);
        }
      }
    }
  }
}
