/** What every reachable state of the supervisor satisfies. */
module SupervisorInvariant {
  import opened SupervisorModel
  import opened Wrappers

  // ---------------------------------------------------------------- counting requests

  /** What is being counted. */
  datatype Tally =
    | Permits(i: nat)      // requests of shard i that hold a permit
    | Queue(i: nat)        // requests of shard i in the permit queue
    | Admitted(i: nat)     // requests of shard i that have not finished
    | Probes(i: nat)       // those of them that are half-open probes
    | Users(key: Key)      // requests between lock attempt and lock release
    | Owners(key: Key)     // requests between lock grant and lock release

  predicate HoldsPermit(p: Phase) { p in {PermitGranted, Calling} }

  predicate OwnsLock(p: Phase) { p in {LockGranted, PermitWaiting, PermitGranted, Calling, Unwinding} }

  predicate UsesLock(p: Phase) { OwnsLock(p) || p == LockWaiting || p == LockRefused }

  predicate Counted(o: Options, t: Tally, q: Request) {
    match t
    case Permits(i) => ShardOf(o, q.key) == i && HoldsPermit(q.phase)
    case Queue(i) => ShardOf(o, q.key) == i && q.phase == PermitWaiting
    case Admitted(i) => ShardOf(o, q.key) == i && q.phase != Done
    case Probes(i) => ShardOf(o, q.key) == i && q.phase != Done && q.probe
    case Users(k) => q.key == k && UsesLock(q.phase)
    case Owners(k) => q.key == k && OwnsLock(q.phase)
  }

  function One(o: Options, t: Tally, q: Request): nat {
    if Counted(o, t, q) then 1 else 0
  }

  function Sum(o: Options, t: Tally, reqs: seq<Request>): nat {
    if reqs == [] then 0 else Sum(o, t, reqs[..|reqs| - 1]) + One(o, t, reqs[|reqs| - 1])
  }

  lemma {:induction false} SumUpdate(o: Options, t: Tally, reqs: seq<Request>, r: Req, q: Request)
    requires r < |reqs|
    ensures Sum(o, t, reqs[r := q]) == Sum(o, t, reqs) - One(o, t, reqs[r]) + One(o, t, q)
  {
    var last := |reqs| - 1;
    if r < last {
      SumUpdate(o, t, reqs[..last], r, q);
      assert reqs[r := q][..last] == reqs[..last][r := q];
    } else {
      assert reqs[r := q][..last] == reqs[..last];
    }
  }

  lemma SumAppend(o: Options, t: Tally, reqs: seq<Request>, q: Request)
    ensures Sum(o, t, reqs + [q]) == Sum(o, t, reqs) + One(o, t, q)
  {
    assert (reqs + [q])[..|reqs|] == reqs;
  }

  lemma {:induction false} SumSame(o: Options, t: Tally, a: seq<Request>, b: seq<Request>)
    requires |a| == |b| && forall r :: 0 <= r < |a| ==> One(o, t, a[r]) == One(o, t, b[r])
    ensures Sum(o, t, a) == Sum(o, t, b)
  {
    if a != [] {
      SumSame(o, t, a[..|a| - 1], b[..|b| - 1]);
    }
  }

  lemma {:induction false} SumIncludes(o: Options, t: Tally, reqs: seq<Request>, r: Req)
    requires r < |reqs| && Counted(o, t, reqs[r])
    ensures Sum(o, t, reqs) >= 1
    ensures forall p :: 0 <= p < |reqs| && p != r && Counted(o, t, reqs[p]) ==> Sum(o, t, reqs) >= 2
  {
    var last := |reqs| - 1;
    if r < last {
      SumIncludes(o, t, reqs[..last], r);
    }
    forall p | 0 <= p < |reqs| && p != r && Counted(o, t, reqs[p])
      ensures Sum(o, t, reqs) >= 2
    {
      if r < last && p == last {
      } else if r < last {
        assert reqs[..last][p] == reqs[p];
      } else {
        SumIncludes(o, t, reqs[..last], p);
      }
    }
  }

  lemma {:induction false} SumFinds(o: Options, t: Tally, reqs: seq<Request>) returns (r: Req)
    requires Sum(o, t, reqs) > 0
    ensures r < |reqs| && Counted(o, t, reqs[r])
  {
    var last := |reqs| - 1;
    if Counted(o, t, reqs[last]) {
      r := last;
    } else {
      r := SumFinds(o, t, reqs[..last]);
    }
  }

  // ---------------------------------------------------------------- the invariant

  ghost predicate Sorted(queue: seq<Req>) {
    forall a, b :: 0 <= a < b < |queue| ==> queue[a] < queue[b]
  }

  ghost predicate Distinct(queue: seq<Req>) {
    forall a, b :: 0 <= a < b < |queue| ==> queue[a] != queue[b]
  }

  /** The permit queue of shard i holds exactly the requests suspended in it. */
  ghost predicate PermitQueueOk(o: Options, s: State, i: nat)
    requires Shaped(o, s) && i < o.shardCount
  {
    Distinct(s.shards[i].waiters) &&
    forall r: Req :: r in s.shards[i].waiters <==> r < |s.requests| && Counted(o, Queue(i), s.requests[r])
  }

  /** Counters, bounds and work conservation of one shard. */
  ghost predicate PermitsOk(o: Options, s: State, i: nat)
    requires Shaped(o, s) && i < o.shardCount
  {
    var sh := s.shards[i];
    sh.inflight == Sum(o, Permits(i), s.requests) <= o.maxInflight &&
    sh.admitted == Sum(o, Admitted(i), s.requests) <= Capacity(o) &&
    |sh.waiters| == Sum(o, Queue(i), s.requests) &&
    (sh.waiters != [] ==> sh.inflight == o.maxInflight)
  }

  ghost predicate CircuitOk(o: Options, s: State, i: nat)
    requires Shaped(o, s) && i < o.shardCount
  {
    var sh := s.shards[i];
    (sh.openedAt.Some? <==> sh.consecutiveFailures >= o.failureThreshold) &&
    Sum(o, Probes(i), s.requests) == (if sh.halfOpenProbe then 1 else 0) &&
    (sh.openedAt.Some? ==> forall r: Req :: r in sh.waiters && r < |s.requests| ==> s.requests[r].probe)
  }

  ghost predicate ShardOk(o: Options, s: State, i: nat)
    requires Shaped(o, s) && i < o.shardCount
  {
    PermitQueueOk(o, s, i) && PermitsOk(o, s, i) && CircuitOk(o, s, i)
  }

  /** The lock table entry of a key: who is in its queue, who owns it, when it exists. */
  ghost predicate LockOk(o: Options, s: State, k: Key) {
    (k in s.locks <==> Sum(o, Users(k), s.requests) > 0) &&
    Sum(o, Owners(k), s.requests) == (if k in s.locks && s.locks[k].locked then 1 else 0) &&
    (k in s.locks ==>
      && s.locks[k].users == Sum(o, Users(k), s.requests)
      && Sorted(s.locks[k].waiters)
      && (s.locks[k].waiters != [] ==> s.locks[k].locked)) &&
    LockQueueOk(s, k)
  }

  ghost predicate LockQueueOk(s: State, k: Key) {
    forall r: Req :: (k in s.locks && r in s.locks[k].waiters) <==>
      r < |s.requests| && s.requests[r].key == k && s.requests[r].phase == LockWaiting
  }

  predicate IsWaiting(p: Phase) { p == LockWaiting || p == PermitWaiting }

  /** No request in a queue has been aborted, and after close there is none at all. */
  ghost predicate WaitersOk(s: State) {
    forall r :: 0 <= r < |s.requests| && IsWaiting(s.requests[r].phase) ==> !s.requests[r].aborted && s.stage.Open?
  }

  /** First come, first served: whoever has been given a lock came before everyone who still waits for it. */
  ghost predicate FifoOk(s: State) {
    forall a, b :: 0 <= a < |s.requests| && 0 <= b < |s.requests| && MustPrecede(s.requests[a], s.requests[b]) ==> a < b
  }

  predicate MustPrecede(served: Request, waiting: Request) {
    served.key == waiting.key && served.held && waiting.phase == LockWaiting
  }

  /** Owners of a lock have been given it. */
  ghost predicate HeldOk(s: State) {
    forall r :: 0 <= r < |s.requests| && OwnsLock(s.requests[r].phase) ==> s.requests[r].held
  }

  ghost predicate StageOk(s: State) {
    (s.stage.Draining? ==> !AllIdle(s.shards)) &&
    (s.stage == DrainSettled(true) || s.stage == Closed(false) ==> AllIdle(s.shards)) &&
    (!s.stage.Closed? ==>
       forall i :: 0 <= i < |s.shards| ==> s.shards[i].shutdowns == 0 && !s.shards[i].closeOnStart) &&
    (forall i :: 0 <= i < |s.shards| ==> ShutdownOk(s, s.shards[i]))
  }

  ghost predicate ShutdownOk(s: State, sh: Shard) {
    sh.shutdowns <= 1 && (sh.shutdowns == 1 ==> sh.backend) &&
    (sh.starting ==> !sh.backend) &&
    (s.stage == Closed(false) ==> (sh.backend ==> sh.shutdowns == 1) && (sh.starting ==> sh.closeOnStart))
  }

  ghost predicate Inv(o: Options, s: State) {
    Shaped(o, s) &&
    (forall i :: 0 <= i < o.shardCount ==> ShardOk(o, s, i)) &&
    (forall k :: LockOk(o, s, k)) &&
    WaitersOk(s) && FifoOk(s) && HeldOk(s) && StageOk(s)
  }

  // ---------------------------------------------------------------- what a change leaves alone

  /** What a phase means for the counters of its shard. */
  datatype Standing = Holding | InQueue | Elsewhere | Gone

  function ShardStanding(p: Phase): Standing {
    if HoldsPermit(p) then Holding else if p == PermitWaiting then InQueue else if p == Done then Gone else Elsewhere
  }

  /** What a phase means for the lock of its key. */
  datatype LockStanding = Owner | Waiter | User | Free

  function StandingAtLock(p: Phase): LockStanding {
    if OwnsLock(p) then Owner else if p == LockWaiting then Waiter else if p == LockRefused then User else Free
  }

  /** From a to b, possibly longer, nothing changes that shard i counts. */
  ghost predicate KeptForShard(o: Options, i: nat, a: seq<Request>, b: seq<Request>) {
    |a| <= |b| && (forall r :: 0 <= r < |a| ==> SameForShard(o, i, a[r], b[r])) &&
    forall r :: |a| <= r < |b| ==> ShardOf(o, b[r].key) != i
  }

  predicate SameForShard(o: Options, i: nat, a: Request, b: Request) {
    a.key == b.key && a.probe == b.probe &&
    (ShardOf(o, a.key) == i ==> ShardStanding(a.phase) == ShardStanding(b.phase))
  }

  ghost predicate KeptForLock(k: Key, a: seq<Request>, b: seq<Request>) {
    |a| <= |b| && (forall r :: 0 <= r < |a| ==> SameForLock(k, a[r], b[r])) &&
    forall r :: |a| <= r < |b| ==> b[r].key != k
  }

  predicate SameForLock(k: Key, a: Request, b: Request) {
    a.key == b.key && (a.key == k ==> StandingAtLock(a.phase) == StandingAtLock(b.phase))
  }

  predicate SameCounters(a: Shard, b: Shard) {
    a.inflight == b.inflight && a.admitted == b.admitted && a.waiters == b.waiters &&
    a.consecutiveFailures == b.consecutiveFailures && a.openedAt == b.openedAt && a.halfOpenProbe == b.halfOpenProbe
  }

  lemma {:induction false} SumExtends(o: Options, t: Tally, a: seq<Request>, b: seq<Request>)
    requires |a| <= |b|
    requires forall r :: 0 <= r < |a| ==> One(o, t, a[r]) == One(o, t, b[r])
    requires forall r :: |a| <= r < |b| ==> !Counted(o, t, b[r])
    ensures Sum(o, t, a) == Sum(o, t, b)
    decreases |b|
  {
    var last := |b| - 1;
    if |a| == |b| {
      SumSame(o, t, a, b);
    } else {
      SumExtends(o, t, a, b[..last]);
    }
  }

  lemma ShardSumsKept(o: Options, i: nat, a: seq<Request>, b: seq<Request>)
    requires KeptForShard(o, i, a, b)
    ensures Sum(o, Permits(i), a) == Sum(o, Permits(i), b) && Sum(o, Queue(i), a) == Sum(o, Queue(i), b)
    ensures Sum(o, Admitted(i), a) == Sum(o, Admitted(i), b) && Sum(o, Probes(i), a) == Sum(o, Probes(i), b)
  {
    forall r | 0 <= r < |a|
      ensures One(o, Permits(i), a[r]) == One(o, Permits(i), b[r]) && One(o, Queue(i), a[r]) == One(o, Queue(i), b[r])
      ensures One(o, Admitted(i), a[r]) == One(o, Admitted(i), b[r]) &&
              One(o, Probes(i), a[r]) == One(o, Probes(i), b[r])
    {
      assert SameForShard(o, i, a[r], b[r]);
    }
    SumExtends(o, Permits(i), a, b);
    SumExtends(o, Queue(i), a, b);
    SumExtends(o, Admitted(i), a, b);
    SumExtends(o, Probes(i), a, b);
  }

  lemma ShardKept(o: Options, s: State, t: State, i: nat)
    requires Shaped(o, s) && Shaped(o, t) && i < o.shardCount && ShardOk(o, s, i)
    requires SameCounters(s.shards[i], t.shards[i]) && KeptForShard(o, i, s.requests, t.requests)
    ensures ShardOk(o, t, i)
  {
    ShardSumsKept(o, i, s.requests, t.requests);
    forall r: Req
      ensures r in t.shards[i].waiters <==> r < |t.requests| && Counted(o, Queue(i), t.requests[r])
    {
      if r < |s.requests| {
        assert SameForShard(o, i, s.requests[r], t.requests[r]);
      }
    }
    forall r: Req | r in t.shards[i].waiters && r < |t.requests| && t.shards[i].openedAt.Some?
      ensures t.requests[r].probe
    {
      assert r in s.shards[i].waiters;
      assert SameForShard(o, i, s.requests[r], t.requests[r]);
    }
  }

  lemma LockKept(o: Options, s: State, t: State, k: Key)
    requires LockOk(o, s, k)
    requires k in s.locks <==> k in t.locks
    requires k in s.locks ==> s.locks[k] == t.locks[k]
    requires KeptForLock(k, s.requests, t.requests)
    ensures LockOk(o, t, k)
  {
    var a, b := s.requests, t.requests;
    forall r | 0 <= r < |a|
      ensures One(o, Users(k), a[r]) == One(o, Users(k), b[r]) && One(o, Owners(k), a[r]) == One(o, Owners(k), b[r])
    {
      assert SameForLock(k, a[r], b[r]);
    }
    SumExtends(o, Users(k), a, b);
    SumExtends(o, Owners(k), a, b);
    forall r: Req
      ensures (k in t.locks && r in t.locks[k].waiters) <==> r < |b| && b[r].key == k && b[r].phase == LockWaiting
    {
      if r < |a| {
        assert SameForLock(k, a[r], b[r]);
      }
    }
  }
}
