/** The runtime state refresh of a task graph: a round-robin loop over mutable records, proved to
    compute one fixpoint whatever the order of the records. */
module TaskRefresh {

  type Id = string

  datatype Status = Planned | Ready | Running | Validating | RetryWait | Accepted | Failed | Blocked | Cancelled

  datatype TaskError = NoError | MissingDependency | IncompleteDependency | Other(message: string)

  datatype Task = Task(status: Status, dependencies: seq<Id>, error: TaskError)

  type Tasks = map<Id, Task>

  predicate Open(t: Task) { t.status in {Planned, Ready, RetryWait} }

  predicate Dead(t: Task) { t.status in {Failed, Blocked, Cancelled} }

  predicate SomeMissing(tasks: Tasks, t: Task) {
    exists d :: d in t.dependencies && d !in tasks
  }

  predicate SomeDead(tasks: Tasks, t: Task) {
    exists d :: d in t.dependencies && d in tasks && Dead(tasks[d])
  }

  predicate AllAccepted(tasks: Tasks, t: Task) {
    forall d :: d in t.dependencies ==> d in tasks && tasks[d].status == Accepted
  }

  // ---------------------------------------------------------------- what the loop computes

  /** A dependency path through open tasks whose last task depends on a missing or dead one. */
  ghost predicate DoomPath(tasks: Tasks, path: seq<Id>) {
    path != [] &&
    (forall i :: 0 <= i < |path| ==> path[i] in tasks && Open(tasks[path[i]])) &&
    (forall i, j :: 0 <= i < |path| && j == i + 1 && j < |path| ==> path[j] in tasks[path[i]].dependencies) &&
    var last := tasks[path[|path| - 1]];
    SomeMissing(tasks, last) || SomeDead(tasks, last)
  }

  ghost predicate Doomed(tasks: Tasks, id: Id) {
    exists path :: DoomPath(tasks, path) && path[0] == id
  }

  function BlockedTask(tasks: Tasks, t: Task): Task {
    t.(status := Blocked, error := if SomeMissing(tasks, t) then MissingDependency else IncompleteDependency)
  }

  ghost function RefreshedTask(tasks: Tasks, id: Id): Task
    requires id in tasks
  {
    var t := tasks[id];
    if !Open(t) then t
    else if Doomed(tasks, id) then BlockedTask(tasks, t)
    else if AllAccepted(tasks, t) then t.(status := Ready)
    else t
  }

  ghost function Refreshed(tasks: Tasks): Tasks {
    map id | id in tasks :: RefreshedTask(tasks, id)
  }

  // ---------------------------------------------------------------- loop invariant

  /** Every record is as before, or has taken a step that the final state keeps. */
  ghost predicate Progress(before: Tasks, now: Tasks) {
    now.Keys == before.Keys && forall id :: id in before ==> TaskProgress(before, now, id)
  }

  ghost predicate TaskProgress(before: Tasks, now: Tasks, id: Id)
    requires id in before && id in now
  {
    || now[id] == before[id]
    || (Open(before[id]) && Doomed(before, id) && now[id] == BlockedTask(before, before[id]))
    || (Open(before[id]) && AllAccepted(before, before[id]) && now[id] == before[id].(status := Ready))
  }

  /** The loop body would leave this record alone. */
  predicate Settled(now: Tasks, t: Task) {
    Open(t) ==> !SomeMissing(now, t) && !SomeDead(now, t) && (AllAccepted(now, t) ==> t.status == Ready)
  }

  lemma DoomStarts(tasks: Tasks, id: Id)
    requires id in tasks && Open(tasks[id]) && (SomeMissing(tasks, tasks[id]) || SomeDead(tasks, tasks[id]))
    ensures Doomed(tasks, id)
  {
    assert DoomPath(tasks, [id]);
  }

  lemma DoomSpreads(tasks: Tasks, id: Id, d: Id)
    requires id in tasks && Open(tasks[id]) && d in tasks[id].dependencies && Doomed(tasks, d)
    ensures Doomed(tasks, id)
  {
    var path :| DoomPath(tasks, path) && path[0] == d;
    var longer := [id] + path;
    assert longer[|longer| - 1] == path[|path| - 1];
    forall i, j | 0 <= i < |longer| && j == i + 1 && j < |longer|
      ensures longer[j] in tasks[longer[i]].dependencies
    {
      if i > 0 {
        assert longer[i] == path[i - 1] && longer[j] == path[j - 1];
      }
    }
    assert DoomPath(tasks, longer);
  }

  lemma BlockingIsProgress(before: Tasks, now: Tasks, id: Id)
    requires Progress(before, now) && id in now && Open(now[id])
    requires SomeMissing(now, now[id]) || SomeDead(now, now[id])
    ensures Open(before[id]) && Doomed(before, id)
    ensures BlockedTask(now, now[id]) == BlockedTask(before, before[id])
  {
    assert TaskProgress(before, now, id);
    if !SomeMissing(before, before[id]) {
      var d :| d in now[id].dependencies && d in now && Dead(now[d]);
      assert TaskProgress(before, now, d);
      if Dead(before[d]) {
        DoomStarts(before, id);
      } else {
        DoomSpreads(before, id, d);
      }
    } else {
      DoomStarts(before, id);
    }
  }

  lemma StartOfProgress(before: Tasks)
    ensures Progress(before, before)
  {}

  lemma ProgressGoesOn(before: Tasks, now: Tasks, id: Id, t: Task)
    requires Progress(before, now) && id in now && TaskProgress(before, now[id := t], id)
    ensures Progress(before, now[id := t])
  {
    forall k | k in before && k != id
      ensures TaskProgress(before, now[id := t], k)
    {
      assert TaskProgress(before, now, k);
    }
  }

  lemma AcceptanceIsStable(before: Tasks, now: Tasks, id: Id)
    requires Progress(before, now) && id in now
    ensures AllAccepted(now, now[id]) <==> AllAccepted(before, before[id])
  {
    assert TaskProgress(before, now, id);
    forall d | d in before
      ensures now[d].status == Accepted <==> before[d].status == Accepted
    {
      assert TaskProgress(before, now, d);
    }
  }

  /** A settled table that differs from `before` only in open tasks having been blocked or made ready. */
  ghost predicate Fixpoint(before: Tasks, now: Tasks) {
    now.Keys == before.Keys && (forall id :: id in now ==> Settled(now, now[id])) &&
    forall id :: id in before ==> MayBecome(before[id], now[id])
  }

  predicate MayBecome(before: Task, now: Task) {
    now == before ||
    (Open(before) && now.dependencies == before.dependencies && (now.status == Blocked || now.status == Ready))
  }

  /** In every fixpoint the doomed tasks are blocked, so blocking exactly those is the least one. */
  lemma {:induction false} DoomArrives(before: Tasks, now: Tasks, path: seq<Id>)
    requires Fixpoint(before, now) && DoomPath(before, path)
    ensures now[path[0]].status == Blocked
    decreases |path|
  {
    var id := path[0];
    assert MayBecome(before[id], now[id]) && Settled(now, now[id]);
    if |path| == 1 {
      if SomeDead(before, before[id]) {
        var d :| d in before[id].dependencies && d in before && Dead(before[d]);
        assert MayBecome(before[d], now[d]);
        assert SomeDead(now, now[id]);
      } else {
        var d :| d in before[id].dependencies && d !in before;
        assert SomeMissing(now, now[id]);
      }
    } else {
      var rest := path[1..];
      assert rest[|rest| - 1] == path[|path| - 1] && rest[0] == path[1];
      forall i, j | 0 <= i < |rest| && j == i + 1 && j < |rest|
        ensures rest[j] in before[rest[i]].dependencies
      {
        assert path[j + 1] in before[path[i + 1]].dependencies;
      }
      DoomArrives(before, now, rest);
      assert path[1] in before[path[0]].dependencies;
      assert SomeDead(now, now[id]);
    }
  }

  /** A settled state in progress from `before` is the one final state. */
  lemma SettledIsRefreshed(before: Tasks, now: Tasks)
    requires Progress(before, now) && forall id :: id in now ==> Settled(now, now[id])
    ensures now == Refreshed(before)
  {
    forall id | id in before
      ensures MayBecome(before[id], now[id])
    {
      assert TaskProgress(before, now, id);
    }
    forall id | id in before
      ensures now[id] == RefreshedTask(before, id)
    {
      assert TaskProgress(before, now, id) && Settled(now, now[id]);
      AcceptanceIsStable(before, now, id);
      if Open(before[id]) && Doomed(before, id) {
        var path :| DoomPath(before, path) && path[0] == id;
        DoomArrives(before, now, path);
      }
    }
  }

  // ---------------------------------------------------------------- termination

  function Weight(t: Task): nat {
    if !Open(t) then 0 else if t.status == Ready then 1 else 2
  }

  function TotalWeight(tasks: Tasks, order: seq<Id>): nat
    requires forall id :: id in order ==> id in tasks
  {
    if order == [] then 0 else Weight(tasks[order[0]]) + TotalWeight(tasks, order[1..])
  }

  lemma {:induction false} WeightFalls(tasks: Tasks, order: seq<Id>, id: Id, t: Task)
    requires (forall k :: k in order ==> k in tasks) && id in tasks && Weight(t) < Weight(tasks[id])
    ensures TotalWeight(tasks[id := t], order) <= TotalWeight(tasks, order)
    ensures id in order ==> TotalWeight(tasks[id := t], order) < TotalWeight(tasks, order)
  {
    if order != [] {
      WeightFalls(tasks, order[1..], id, t);
      assert order == [order[0]] + order[1..];
    }
  }

  // ---------------------------------------------------------------- the loop

  class TaskTable {
    var tasks: Tasks

    constructor (tasks: Tasks)
      ensures this.tasks == tasks
    {
      this.tasks := tasks;
    }

    /** One turn of the inner loop; `before` and `order` only serve the proof. */
    method RefreshTask(id: Id, ghost before: Tasks, ghost order: seq<Id>) returns (moved: bool)
      requires Progress(before, tasks) && id in order && forall k :: k in order <==> k in tasks
      modifies this
      ensures Progress(before, tasks)
      ensures !moved ==> tasks == old(tasks) && Settled(tasks, tasks[id])
      ensures moved ==> TotalWeight(tasks, order) < old(TotalWeight(tasks, order))
    {
      var task := tasks[id];
      var next := task;
      if !Open(task) {
        return false;
      } else if SomeMissing(tasks, task) {
        next := task.(status := Blocked, error := MissingDependency);
        BlockingIsProgress(before, tasks, id);
      } else if SomeDead(tasks, task) {
        next := task.(status := Blocked, error := IncompleteDependency);
        BlockingIsProgress(before, tasks, id);
      } else if AllAccepted(tasks, task) && task.status != Ready {
        next := task.(status := Ready);
        AcceptanceIsStable(before, tasks, id);
        assert TaskProgress(before, tasks, id);
      } else {
        return false;
      }
      WeightFalls(tasks, order, id, next);
      ProgressGoesOn(before, tasks, id, next);
      tasks := tasks[id := next];
      moved := true;
    }

    /** `order` is the order in which the records are enumerated. */
    method RefreshTaskStates(order: seq<Id>)
      requires forall id :: id in order <==> id in tasks
      modifies this
      ensures tasks == Refreshed(old(tasks))
    {
      hide Settled, TaskProgress, Refreshed, TotalWeight;
      ghost var before := tasks;
      StartOfProgress(before);
      var changed := true;
      while changed
        invariant Progress(before, tasks)
        invariant !changed ==> forall id :: id in tasks ==> Settled(tasks, tasks[id])
        decreases TotalWeight(tasks, order), changed
      {
        changed := false;
        ghost var weight := TotalWeight(tasks, order);
        var i := 0;
        while i < |order|
          invariant 0 <= i <= |order|
          invariant Progress(before, tasks)
          invariant !changed ==> forall k :: 0 <= k < i ==> Settled(tasks, tasks[order[k]])
          invariant if changed then TotalWeight(tasks, order) < weight else TotalWeight(tasks, order) == weight
        {
          assert order[i] in order;
          var moved := RefreshTask(order[i], before, order);
          changed := changed || moved;
          i := i + 1;
        }
      }
      SettledIsRefreshed(before, tasks);
    }
  }

  // ---------------------------------------------------------------- what the result means

  /** The result is the least fixpoint: whatever it blocks, every fixpoint blocks. */
  lemma RefreshedIsLeastFixpoint(tasks: Tasks, other: Tasks)
    requires Fixpoint(tasks, other)
    ensures Fixpoint(tasks, Refreshed(tasks))
    ensures forall id :: id in tasks && Refreshed(tasks)[id] != tasks[id] && Refreshed(tasks)[id].status == Blocked ==>
              other[id].status == Blocked
  {
    var least := Refreshed(tasks);
    forall id | id in tasks
      ensures Settled(least, least[id]) && MayBecome(tasks[id], least[id])
    {
      assert least[id] == RefreshedTask(tasks, id);
      RefreshedSettles(tasks, id);
    }
    forall id | id in tasks && least[id] != tasks[id] && least[id].status == Blocked
      ensures other[id].status == Blocked
    {
      assert least[id] == RefreshedTask(tasks, id);
      var path :| DoomPath(tasks, path) && path[0] == id;
      DoomArrives(tasks, other, path);
    }
  }

  /** The result is settled, so refreshing again changes nothing. */
  lemma RefreshIsIdempotent(tasks: Tasks)
    ensures Refreshed(Refreshed(tasks)) == Refreshed(tasks)
  {
    var once := Refreshed(tasks);
    forall id | id in once
      ensures RefreshedTask(once, id) == once[id]
    {
      assert once[id] == RefreshedTask(tasks, id);
      RefreshedSettles(tasks, id);
      if Open(once[id]) && Doomed(once, id) {
        var path :| DoomPath(once, path) && path[0] == id;
        RefreshedSettles(tasks, path[|path| - 1]);
      }
    }
  }

  lemma RefreshedSettles(tasks: Tasks, id: Id)
    requires id in tasks
    ensures Settled(Refreshed(tasks), Refreshed(tasks)[id])
  {
    var once := Refreshed(tasks);
    var t := tasks[id];
    assert once[id] == RefreshedTask(tasks, id);
    if Open(once[id]) {
      if SomeMissing(once, once[id]) {
        var d :| d in t.dependencies && d !in once;
        assert SomeMissing(tasks, t);
        DoomStarts(tasks, id);
      }
      if SomeDead(once, once[id]) {
        var d :| d in t.dependencies && d in once && Dead(once[d]);
        assert once[d] == RefreshedTask(tasks, d);
        if Dead(tasks[d]) {
          assert SomeDead(tasks, t);
          DoomStarts(tasks, id);
        } else {
          DoomSpreads(tasks, id, d);
        }
      }
      if AllAccepted(once, once[id]) {
        assert forall d :: d in t.dependencies ==> once[d] == RefreshedTask(tasks, d);
        assert AllAccepted(tasks, t);
      }
    }
  }

  /** A task becomes runnable only when every dependency has been accepted, or if it already was. */
  lemma ReadyMeansAccepted(tasks: Tasks, id: Id)
    requires id in tasks && Refreshed(tasks)[id].status == Ready && tasks[id].status != Ready
    ensures forall d :: d in tasks[id].dependencies ==> d in tasks && Refreshed(tasks)[d].status == Accepted
  {
    assert Refreshed(tasks)[id] == RefreshedTask(tasks, id);
    forall d | d in tasks[id].dependencies
      ensures d in tasks && Refreshed(tasks)[d].status == Accepted
    {
      assert Refreshed(tasks)[d] == RefreshedTask(tasks, d);
    }
  }

  predicate Absent(tasks: Tasks, dependencies: seq<Id>) {
    exists d :: d in dependencies && d !in tasks
  }

  /** Some dependency has ended, and not by being accepted. */
  predicate EndedBadly(tasks: Tasks, dependencies: seq<Id>) {
    exists d :: d in dependencies && d in tasks && tasks[d].status in {Failed, Blocked, Cancelled}
  }

  predicate EndedWell(tasks: Tasks, dependencies: seq<Id>) {
    forall d :: d in dependencies ==> d in tasks && tasks[d].status == Accepted
  }

  /** What becomes of every task, in terms of what becomes of its dependencies. */
  lemma RefreshMeans(tasks: Tasks, id: Id)
    requires id in tasks
    ensures var before, all := tasks[id], Refreshed(tasks);
            id in all &&
            if before.status !in {Planned, Ready, RetryWait} then all[id] == before
            else if Absent(tasks, before.dependencies)
            then all[id] == before.(status := Blocked, error := MissingDependency)
            else if EndedBadly(all, before.dependencies)
            then all[id] == before.(status := Blocked, error := IncompleteDependency)
            else if EndedWell(all, before.dependencies) then all[id] == before.(status := Ready)
            else all[id] == before
  {
    var before, all := tasks[id], Refreshed(tasks);
    assert all[id] == RefreshedTask(tasks, id);
    assert Absent(tasks, before.dependencies) <==> SomeMissing(tasks, before);
    forall d | d in tasks
      ensures all[d] == RefreshedTask(tasks, d)
      ensures all[d].status == Accepted <==> tasks[d].status == Accepted
    {
    }
    if Open(before) {
      DoomIsHandedDown(tasks, id);
    }
  }

  /** A task is doomed exactly if one of its dependencies is missing or ends badly. */
  lemma DoomIsHandedDown(tasks: Tasks, id: Id)
    requires id in tasks && Open(tasks[id])
    ensures Doomed(tasks, id) <==> SomeMissing(tasks, tasks[id]) || EndedBadly(Refreshed(tasks), tasks[id].dependencies)
  {
    var t, all := tasks[id], Refreshed(tasks);
    if Doomed(tasks, id) {
      var path :| DoomPath(tasks, path) && path[0] == id;
      if |path| > 1 {
        var rest := path[1..];
        assert DoomPath(tasks, rest) by {
          assert rest[|rest| - 1] == path[|path| - 1];
          forall i, j | 0 <= i < |rest| && j == i + 1 && j < |rest|
            ensures rest[j] in tasks[rest[i]].dependencies
          {
            assert path[j + 1] in tasks[path[i + 1]].dependencies;
          }
        }
        assert path[1] in tasks[path[0]].dependencies && Doomed(tasks, path[1]);
        assert all[path[1]] == RefreshedTask(tasks, path[1]);
      } else if !SomeMissing(tasks, t) {
        var d :| d in t.dependencies && d in tasks && Dead(tasks[d]);
        assert all[d] == RefreshedTask(tasks, d);
      }
    }
    if SomeMissing(tasks, t) {
      DoomStarts(tasks, id);
    } else if EndedBadly(all, t.dependencies) {
      var d :| d in t.dependencies && d in all && all[d].status in {Failed, Blocked, Cancelled};
      assert all[d] == RefreshedTask(tasks, d);
      if Dead(tasks[d]) {
        assert SomeDead(tasks, t);
        DoomStarts(tasks, id);
      } else {
        DoomSpreads(tasks, id, d);
      }
    }
  }
}
