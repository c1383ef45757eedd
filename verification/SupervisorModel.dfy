/** The sharded supervisor as a transition system. JavaScript runs to completion, so every stretch of
    code between two suspension points is one step; a request's phase says where it is suspended. */
module SupervisorModel {
  import opened Wrappers

  type Key = string

  /** Requests are numbered in the order in which they are admitted. */
  type Req = nat

  /** `hash` is the function that spreads thread keys over shards; nothing depends on which one it is. */
  datatype Configuration = Configuration(
    shardCount: nat, maxInflight: nat, maxQueue: nat, failureThreshold: nat, cooldown: int, hash: Key -> nat)

  /** What the constructor accepts. */
  type Options = o: Configuration | o.shardCount > 0 && o.maxInflight > 0 && o.failureThreshold > 0
    witness Configuration(1, 1, 0, 1, 0, _ => 0)

  function ShardOf(o: Options, k: Key): (i: nat)
    ensures i < o.shardCount
  {
    o.hash(k) % o.shardCount
  }

  function Capacity(o: Options): nat { o.maxInflight + o.maxQueue }

  datatype Shard = Shard(
    inflight: int, admitted: int, waiters: seq<Req>, consecutiveFailures: nat, openedAt: Option<int>,
    halfOpenProbe: bool, backend: bool, starting: bool, closeOnStart: bool, shutdowns: nat)

  datatype Lock = Lock(locked: bool, waiters: seq<Req>, users: int)

  /** Where a request is suspended. */
  datatype Phase =
    | LockWaiting     // queued for the lock of its thread
    | LockGranted     // lock handed over, not yet resumed
    | LockRefused     // rejected in the lock queue, not yet resumed
    | PermitWaiting   // holds the lock, queued for a permit
    | PermitGranted   // permit handed over, not yet resumed
    | Calling         // waiting for the backend
    | Unwinding       // settled, lock still held
    | Finishing       // lock given back
    | Done

  /** `held` records that the request has been given its thread lock at some time. */
  datatype Request = Request(key: Key, probe: bool, aborted: bool, held: bool, phase: Phase)

  datatype Stage = Open | Draining | DrainSettled(drained: bool) | Closed(timedOut: bool)

  datatype State = State(shards: seq<Shard>, locks: map<Key, Lock>, requests: seq<Request>, stage: Stage)

  ghost predicate Shaped(o: Options, s: State) { |s.shards| == o.shardCount }

  function NewShard(): Shard {
    Shard(0, 0, [], 0, None, false, false, false, false, 0)
  }

  function Init(o: Options): State {
    State(seq(o.shardCount, _ => NewShard()), map[], [], Open)
  }

  // ---------------------------------------------------------------- queues

  function Enter(reqs: seq<Request>, r: Req, p: Phase): (out: seq<Request>)
    ensures |out| == |reqs|
  {
    if r < |reqs| then reqs[r := reqs[r].(phase := p)] else reqs
  }

  /** Every request in `queue` moves to phase p at once. */
  function EnterAll(reqs: seq<Request>, queue: seq<Req>, p: Phase): (out: seq<Request>)
    ensures |out| == |reqs|
  {
    seq(|reqs|, r requires 0 <= r < |reqs| => if r in queue then reqs[r].(phase := p) else reqs[r])
  }

  predicate IsAborted(reqs: seq<Request>, r: Req) { r < |reqs| && reqs[r].aborted }

  /** The queue from its first waiter on whose signal has not fired. */
  function SkipAborted(reqs: seq<Request>, queue: seq<Req>): seq<Req> {
    if queue == [] then [] else if IsAborted(reqs, queue[0]) then SkipAborted(reqs, queue[1..]) else queue
  }

  function Without(queue: seq<Req>, r: Req): seq<Req> {
    if queue == [] then [] else if queue[0] == r then queue[1..] else [queue[0]] + Without(queue[1..], r)
  }

  // ---------------------------------------------------------------- admission

  datatype Authorization = CircuitClosed | CircuitOpen | HalfOpen

  function Authorize(o: Options, sh: Shard, now: int): Authorization {
    if sh.openedAt.None? then CircuitClosed
    else if now - sh.openedAt.value < o.cooldown || sh.halfOpenProbe then CircuitOpen
    else HalfOpen
  }

  function LockFor(s: State, k: Key): Lock {
    if k in s.locks then s.locks[k] else Lock(false, [], 0)
  }

  function Arrive(o: Options, s: State, k: Key, aborted: bool, now: int): State
    requires Shaped(o, s)
  {
    var i := ShardOf(o, k);
    var a := Authorize(o, s.shards[i], now);
    if !s.stage.Open? || aborted || a.CircuitOpen? || s.shards[i].admitted >= Capacity(o) then s
    else
      var sh := s.shards[i].(admitted := s.shards[i].admitted + 1,
                             halfOpenProbe := s.shards[i].halfOpenProbe || a.HalfOpen?);
      var lock := LockFor(s, k);
      var r := |s.requests|;
      var granted := !lock.locked;
      State(s.shards[i := sh],
            s.locks[k := Lock(true, if granted then lock.waiters else lock.waiters + [r], lock.users + 1)],
            s.requests + [Request(k, a.HalfOpen?, false, granted, if granted then LockGranted else LockWaiting)],
            s.stage)
  }

  // ---------------------------------------------------------------- the steps of one request

  ghost predicate At(s: State, r: Req, p: Phase) { r < |s.requests| && s.requests[r].phase == p }

  /** With the lock in hand: re-check, then take a permit, queue for one, or give up. */
  function Resume(o: Options, s: State, r: Req): State
    requires Shaped(o, s) && At(s, r, LockGranted)
  {
    var q := s.requests[r];
    var i := ShardOf(o, q.key);
    var sh := s.shards[i];
    if !s.stage.Open? || (!q.probe && sh.openedAt.Some?) || q.aborted then
      s.(requests := Enter(s.requests, r, Unwinding))
    else if sh.inflight < o.maxInflight then
      s.(requests := Enter(s.requests, r, PermitGranted), shards := s.shards[i := sh.(inflight := sh.inflight + 1)])
    else if |sh.waiters| + 1 > o.maxQueue then
      s.(requests := Enter(s.requests, r, Unwinding))
    else
      s.(requests := Enter(s.requests, r, PermitWaiting), shards := s.shards[i := sh.(waiters := sh.waiters + [r])])
  }

  /** With the permit in hand: make sure a backend is there or being started. */
  function Begin(o: Options, s: State, r: Req, factoryThrows: bool): State
    requires Shaped(o, s) && At(s, r, PermitGranted)
  {
    var i := ShardOf(o, s.requests[r].key);
    var sh := s.shards[i];
    s.(requests := Enter(s.requests, r, Calling),
       shards := s.shards[i := sh.(starting := sh.starting || (!sh.backend && !factoryThrows))])
  }

  datatype Outcome = Success | HealthFailure | OtherFailure

  /** Bookkeeping of the circuit; opening it turns every queued request away. */
  function Record(o: Options, s: State, i: nat, outcome: Outcome, now: int): State
    requires Shaped(o, s) && i < o.shardCount
  {
    var sh := s.shards[i];
    match outcome
    case Success => s.(shards := s.shards[i := sh.(consecutiveFailures := 0, openedAt := None)])
    case OtherFailure => s
    case HealthFailure =>
      var failures := sh.consecutiveFailures + 1;
      if failures < o.failureThreshold then s.(shards := s.shards[i := sh.(consecutiveFailures := failures)])
      else
        s.(shards := s.shards[i := sh.(consecutiveFailures := failures, openedAt := Some(now), waiters := [])],
           requests := EnterAll(s.requests, sh.waiters, Unwinding))
  }

  /** A permit goes back to shard i, or straight to the first waiter that is still interested. */
  function ReleasePermit(o: Options, s: State, i: nat): State
    requires Shaped(o, s) && i < o.shardCount
  {
    var sh := s.shards[i];
    var queue := SkipAborted(s.requests, sh.waiters);
    if !s.stage.Open? then s.(shards := s.shards[i := sh.(inflight := sh.inflight - 1)])
    else if queue == [] then s.(shards := s.shards[i := sh.(inflight := sh.inflight - 1, waiters := [])])
    else s.(shards := s.shards[i := sh.(waiters := queue[1..])], requests := Enter(s.requests, queue[0], PermitGranted))
  }

  /** The backend call ends: bookkeeping, permit, and the request starts to unwind. */
  function Settle(o: Options, s: State, r: Req, outcome: Outcome, now: int): State
    requires Shaped(o, s) && At(s, r, Calling)
  {
    var i := ShardOf(o, s.requests[r].key);
    var after := ReleasePermit(o, Record(o, s, i, outcome, now), i);
    after.(requests := Enter(after.requests, r, Unwinding))
  }

  /** The lock and the requests after the thread lock has been given back. */
  function ReleaseLock(lock: Lock, reqs: seq<Request>): (Lock, seq<Request>) {
    var queue := SkipAborted(reqs, lock.waiters);
    if queue == [] then (lock.(locked := false, waiters := []), reqs)
    else if queue[0] < |reqs| then
      (lock.(waiters := queue[1..]), reqs[queue[0] := reqs[queue[0]].(phase := LockGranted, held := true)])
    else (lock.(waiters := queue[1..]), reqs)
  }

  function Leave(locks: map<Key, Lock>, k: Key, lock: Lock): map<Key, Lock> {
    if lock.users - 1 == 0 then locks - {k} else locks[k := lock.(users := lock.users - 1)]
  }

  function Unwind(s: State, r: Req): State
    requires (At(s, r, Unwinding) || At(s, r, LockRefused)) && s.requests[r].key in s.locks
  {
    var k := s.requests[r].key;
    var (lock, reqs) :=
      if s.requests[r].phase == Unwinding then ReleaseLock(s.locks[k], s.requests) else (s.locks[k], s.requests);
    s.(locks := Leave(s.locks, k, lock), requests := Enter(reqs, r, Finishing))
  }

  ghost predicate AllIdle(shards: seq<Shard>) {
    forall i :: 0 <= i < |shards| ==> shards[i].admitted == 0
  }

  ghost function Finish(o: Options, s: State, r: Req): State
    requires Shaped(o, s) && At(s, r, Finishing)
  {
    var q := s.requests[r];
    var i := ShardOf(o, q.key);
    var sh := s.shards[i];
    var shards := s.shards[i := sh.(admitted := sh.admitted - 1, halfOpenProbe := sh.halfOpenProbe && !q.probe)];
    State(shards, s.locks, Enter(s.requests, r, Done),
          if s.stage.Draining? && AllIdle(shards) then DrainSettled(true) else s.stage)
  }

  // ---------------------------------------------------------------- the environment

  /** A signal fires: queued requests are taken out of their queue at once. */
  function Abort(o: Options, s: State, r: Req): State
    requires Shaped(o, s) && r < |s.requests|
  {
    var q := s.requests[r].(aborted := true);
    var i := ShardOf(o, q.key);
    if q.phase == LockWaiting && q.key in s.locks then
      s.(requests := s.requests[r := q.(phase := LockRefused)],
         locks := s.locks[q.key := s.locks[q.key].(waiters := Without(s.locks[q.key].waiters, r))])
    else if q.phase == PermitWaiting then
      s.(requests := s.requests[r := q.(phase := Unwinding)],
         shards := s.shards[i := s.shards[i].(waiters := Without(s.shards[i].waiters, r))])
    else s.(requests := s.requests[r := q])
  }

  function StopBackend(sh: Shard): Shard {
    if sh.shutdowns > 0 then sh
    else if sh.backend then sh.(shutdowns := 1)
    else if sh.starting then sh.(closeOnStart := true)
    else sh
  }

  function StopBackends(shards: seq<Shard>): (out: seq<Shard>)
    ensures |out| == |shards|
  {
    seq(|shards|, i requires 0 <= i < |shards| => StopBackend(shards[i]))
  }

  /** A backend start ends; one that comes up after shutdown was requested is shut down. */
  function Startup(s: State, i: nat, ok: bool): State
    requires i < |s.shards| && s.shards[i].starting
  {
    var sh := s.shards[i].(starting := false, backend := s.shards[i].backend || ok);
    s.(shards := s.shards[i := if ok && sh.closeOnStart then StopBackend(sh) else sh])
  }

  function Refused(p: Phase): Phase {
    match p
    case LockWaiting => LockRefused
    case PermitWaiting => Unwinding
    case _ => p
  }

  function EmptyShardQueues(shards: seq<Shard>): (out: seq<Shard>)
    ensures |out| == |shards|
  {
    seq(|shards|, i requires 0 <= i < |shards| => shards[i].(waiters := []))
  }

  function EmptyLockQueues(locks: map<Key, Lock>): map<Key, Lock> {
    map k | k in locks :: locks[k].(waiters := [])
  }

  /** Every request that sits in one of the queues is turned away. */
  function TurnAway(s: State): (out: seq<Request>)
    ensures |out| == |s.requests|
  {
    seq(|s.requests|, r requires 0 <= r < |s.requests| =>
      if Queued(s, r) then s.requests[r].(phase := Refused(s.requests[r].phase)) else s.requests[r])
  }

  predicate Queued(s: State, r: Req) {
    (exists i :: 0 <= i < |s.shards| && r in s.shards[i].waiters) || exists k :: k in s.locks && r in s.locks[k].waiters
  }

  ghost function Close(s: State): State {
    if !s.stage.Open? then s
    else
      var shards := EmptyShardQueues(s.shards);
      State(if AllIdle(shards) then StopBackends(shards) else shards, EmptyLockQueues(s.locks), TurnAway(s),
            if AllIdle(shards) then Closed(false) else Draining)
  }

  function DrainTimeout(s: State): State
    requires s.stage.Draining?
  {
    s.(stage := DrainSettled(false))
  }

  function ResumeClose(s: State): State
    requires s.stage.DrainSettled?
  {
    s.(shards := StopBackends(s.shards), stage := Closed(!s.stage.drained))
  }

  // ---------------------------------------------------------------- runs

  datatype Step =
    | StepArrive(key: Key, aborted: bool, now: int)
    | StepResume(r: Req)
    | StepBegin(r: Req, factoryThrows: bool)
    | StepSettle(r: Req, outcome: Outcome, now: int)
    | StepUnwind(r: Req)
    | StepFinish(r: Req)
    | StepAbort(r: Req)
    | StepStartup(i: nat, ok: bool)
    | StepClose
    | StepDrainTimeout
    | StepResumeClose

  ghost predicate Enabled(o: Options, s: State, step: Step) {
    Shaped(o, s) &&
    match step
    case StepArrive(_, _, _) => true
    case StepResume(r) => At(s, r, LockGranted)
    case StepBegin(r, _) => At(s, r, PermitGranted)
    case StepSettle(r, outcome, _) => At(s, r, Calling) &&
      (outcome.Success? ==> s.shards[ShardOf(o, s.requests[r].key)].backend)
    case StepUnwind(r) => (At(s, r, Unwinding) || At(s, r, LockRefused)) && s.requests[r].key in s.locks
    case StepFinish(r) => At(s, r, Finishing)
    case StepAbort(r) => r < |s.requests|
    case StepStartup(i, _) => i < |s.shards| && s.shards[i].starting
    case StepClose => true
    case StepDrainTimeout => s.stage.Draining?
    case StepResumeClose => s.stage.DrainSettled?
  }

  ghost function Next(o: Options, s: State, step: Step): State
    requires Enabled(o, s, step)
  {
    match step
    case StepArrive(k, aborted, now) => Arrive(o, s, k, aborted, now)
    case StepResume(r) => Resume(o, s, r)
    case StepBegin(r, factoryThrows) => Begin(o, s, r, factoryThrows)
    case StepSettle(r, outcome, now) => Settle(o, s, r, outcome, now)
    case StepUnwind(r) => Unwind(s, r)
    case StepFinish(r) => Finish(o, s, r)
    case StepAbort(r) => Abort(o, s, r)
    case StepStartup(i, ok) => Startup(s, i, ok)
    case StepClose => Close(s)
    case StepDrainTimeout => DrainTimeout(s)
    case StepResumeClose => ResumeClose(s)
  }

  /** A finite run: the states visited, from the initial one on. */
  ghost predicate Run(o: Options, states: seq<State>, steps: seq<Step>) {
    |states| == |steps| + 1 && states[0] == Init(o) &&
    forall n :: 0 <= n < |steps| ==> Enabled(o, states[n], steps[n]) && states[n + 1] == Next(o, states[n], steps[n])
  }
}
