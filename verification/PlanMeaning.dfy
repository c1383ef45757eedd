/** The rules for plans in terms of the lists of teams and tasks alone. */
module PlanMeaning {
  import opened DependencyGraph
  import opened PlanValidation
  import opened Wrappers

  // ---------------------------------------------------------------- the team tree

  /** Team i reports to team j. An empty parent is no parent. */
  predicate ReportsTo(teams: seq<Team>, i: nat, j: nat)
    requires i < |teams| && j < |teams|
  {
    teams[i].parent == Some(teams[j].id) && teams[j].id != ""
  }

  ghost predicate TeamRules(teams: seq<Team>) {
    (forall t :: t in teams ==> t.sound && t.id != "" && t.parent != Some(t.id)) &&
    forall i, j :: 0 <= i < |teams| && 0 <= j < |teams| && teams[i].id == teams[j].id ==> i == j
  }

  lemma TeamRulesAre(teams: seq<Team>)
    ensures TeamsOk(teams) <==> TeamRules(teams)
  {
    if TeamRules(teams) {
      forall i | 0 <= i < |teams|
        ensures teams[i].sound && teams[i].id != "" && teams[i].parent != Some(teams[i].id)
      {
        assert teams[i] in teams;
      }
    }
  }

  ghost predicate IsOnlyRoot(teams: seq<Team>, r: nat) {
    r < |teams| && forall i :: 0 <= i < |teams| ==> (teams[i].parent.None? <==> i == r)
  }

  lemma {:induction false} CountAtEnd(refs: seq<Option<Id>>, last: Option<Id>, r: Option<Id>)
    ensures Count(refs + [last], r) == Count(refs, r) + if last == r then 1 else 0
    decreases |refs|
  {
    if refs != [] {
      CountAtEnd(refs[1..], last, r);
      assert (refs + [last])[1..] == refs[1..] + [last];
    }
  }

  /** How often a reference occurs, as a number of places. */
  lemma {:induction false} CountPlaces(refs: seq<Option<Id>>, r: Option<Id>)
    ensures Count(refs, r) == |set i | 0 <= i < |refs| && refs[i] == r|
    decreases |refs|
  {
    var places := set i | 0 <= i < |refs| && refs[i] == r;
    if refs == [] {
      assert places == {};
    } else {
      var n := |refs| - 1;
      CountPlaces(refs[..n], r);
      CountAtEnd(refs[..n], refs[n], r);
      assert refs[..n] + [refs[n]] == refs;
      var before := set i | 0 <= i < |refs[..n]| && refs[..n][i] == r;
      assert places == before + if refs[n] == r then {n} else {};
    }
  }

  lemma RootIs(teams: seq<Team>)
    ensures OneRoot(teams) <==> exists r :: IsOnlyRoot(teams, r)
  {
    var refs := Parents(teams);
    CountPlaces(refs, None);
    var roots := set i | 0 <= i < |refs| && refs[i] == None;
    if |roots| == 1 {
      var r :| r in roots;
      assert roots == {r} by {
        SingleIs(roots, r);
      }
      forall i | 0 <= i < |teams|
        ensures teams[i].parent.None? <==> i == r
      {
        assert i in roots <==> refs[i] == None;
      }
      assert IsOnlyRoot(teams, r);
    }
    if r: nat :| IsOnlyRoot(teams, r) {
      assert roots == {r} by {
        forall i | i in roots
          ensures i == r
        {
          assert teams[i].parent.None?;
        }
        assert refs[r] == None;
      }
    }
  }

  lemma SingleIs<T>(s: set<T>, x: T)
    requires |s| == 1 && x in s
    ensures s == {x}
  {
    assert |s - {x}| == 0;
  }

  /** Every team with a parent reports to a team of the plan whose lead has a higher rank. */
  ghost predicate ParentRules(teams: seq<Team>) {
    forall i :: 0 <= i < |teams| && teams[i].parent.Some? && teams[i].parent.value != "" ==> HasSuperior(teams, i)
  }

  ghost predicate HasSuperior(teams: seq<Team>, i: nat)
    requires i < |teams|
  {
    exists j :: 0 <= j < |teams| && ReportsTo(teams, i, j) &&
      RankLevel(teams[j].leadRank) < RankLevel(teams[i].leadRank)
  }

  lemma ParentRulesAre(teams: seq<Team>)
    requires TeamsOk(teams)
    ensures ParentsOk(teams) <==> ParentRules(teams)
  {
    hide TeamMap, RankLevel;
    TeamMapKeys(teams);
    forall i | 0 <= i < |teams|
      ensures teams[i].id in TeamMap(teams) && TeamMap(teams)[teams[i].id] == teams[i]
    {
      TeamMapFinds(teams, i);
    }
    var byId := TeamMap(teams);
    forall i | 0 <= i < |teams| && HasParent(teams[i])
      ensures (teams[i].parent.value in byId &&
               RankLevel(teams[i].leadRank) > RankLevel(byId[teams[i].parent.value].leadRank)) <==>
              HasSuperior(teams, i)
    {
      if teams[i].parent.value in byId {
        var j :| 0 <= j < |teams| && teams[j].id == teams[i].parent.value;
        assert ReportsTo(teams, i, j);
      }
    }
  }

  /** Teams each of which reports to the next one. */
  ghost predicate ReportingLine(teams: seq<Team>, line: seq<nat>) {
    line != [] && (forall k :: 0 <= k < |line| ==> line[k] < |teams|) &&
    forall k, l :: 0 <= k < |line| && 0 <= l < |line| && l == k + 1 ==> ReportsTo(teams, line[k], line[l])
  }

  lemma DepthRuleIs(teams: seq<Team>, c: Config)
    requires TeamsOk(teams)
    ensures ShallowEnough(teams, c) <==>
              forall line :: ReportingLine(teams, line) ==> |line| <= c.maxHierarchyDepth + 1
  {
    hide TeamMap;
    TeamMapKeys(teams);
    forall i | 0 <= i < |teams|
      ensures teams[i].id in TeamMap(teams) && TeamMap(teams)[teams[i].id] == teams[i]
    {
      TeamMapFinds(teams, i);
    }
    var g := TeamGraph(TeamMap(teams));
    if ShallowEnough(teams, c) {
      forall line | ReportingLine(teams, line)
        ensures |line| <= c.maxHierarchyDepth + 1
      {
        var path := seq(|line|, k requires 0 <= k < |line| => teams[line[k]].id);
        assert IsPath(g, path);
      }
    }
    if forall line :: ReportingLine(teams, line) ==> |line| <= c.maxHierarchyDepth + 1 {
      forall path | IsPath(g, path)
        ensures |path| - 1 <= c.maxHierarchyDepth
      {
        var line := LineOf(teams, path);
      }
    }
  }

  lemma LineOf(teams: seq<Team>, path: seq<Id>) returns (line: seq<nat>)
    requires TeamsOk(teams) && IsPath(TeamGraph(TeamMap(teams)), path)
    ensures ReportingLine(teams, line) && |line| == |path|
  {
    hide TeamMap;
    TeamMapKeys(teams);
    forall i | 0 <= i < |teams|
      ensures teams[i].id in TeamMap(teams) && TeamMap(teams)[teams[i].id] == teams[i]
    {
      TeamMapFinds(teams, i);
    }
    line := [];
    for k := 0 to |path|
      invariant |line| == k
      invariant forall l :: 0 <= l < k ==> line[l] < |teams| && teams[line[l]].id == path[l]
    {
      assert path[k] in TeamGraph(TeamMap(teams));
      var i :| 0 <= i < |teams| && teams[i].id == path[k];
      line := line + [i];
    }
    forall k, l | 0 <= k < |line| && 0 <= l < |line| && l == k + 1
      ensures ReportsTo(teams, line[k], line[l])
    {
      assert path[l] in TeamGraph(TeamMap(teams))[path[k]];
    }
  }

  // ---------------------------------------------------------------- tasks

  ghost predicate TaskRules(p: Plan) {
    (forall t :: t in p.tasks ==> TaskFits(p.teams, t)) &&
    forall i, j :: 0 <= i < |p.tasks| && 0 <= j < |p.tasks| && p.tasks[i].id == p.tasks[j].id ==> i == j
  }

  /** The team of the task is there and led by a higher rank; the task depends on no task twice, nor on itself. */
  ghost predicate TaskFits(teams: seq<Team>, t: PlanTask) {
    t.sound && t.id !in t.dependencies && NoRepeats(t.dependencies) &&
    exists j :: 0 <= j < |teams| && teams[j].id == t.teamId && RankLevel(teams[j].leadRank) < RankLevel(t.assigneeRank)
  }

  predicate NoRepeats(ids: seq<Id>) {
    forall a, b :: 0 <= a < |ids| && 0 <= b < |ids| && ids[a] == ids[b] ==> a == b
  }

  lemma TaskRulesAre(p: Plan)
    requires TeamsOk(p.teams)
    ensures TasksOk(p.tasks, TeamMap(p.teams)) <==> TaskRules(p)
  {
    hide TeamMap, RankLevel, TaskFits;
    forall i | 0 <= i < |p.tasks|
      ensures TaskFits(p.teams, p.tasks[i]) <==> TaskOk(p.tasks[i], TeamMap(p.teams))
    {
      TaskFitsIs(p.teams, p.tasks[i]);
    }
    assert TasksOk(p.tasks, TeamMap(p.teams)) <==>
             (forall i :: 0 <= i < |p.tasks| ==> TaskOk(p.tasks[i], TeamMap(p.teams))) &&
             forall i, j :: 0 <= i < j < |p.tasks| ==> p.tasks[i].id != p.tasks[j].id;
    if TaskRules(p) {
      forall i | 0 <= i < |p.tasks|
        ensures TaskFits(p.teams, p.tasks[i])
      {
        assert p.tasks[i] in p.tasks;
      }
    }
  }

  /** What the rules for tasks demand of one task. */
  predicate TaskOk(t: PlanTask, byId: map<Id, Team>) {
    && t.sound && t.teamId in byId
    && RankLevel(t.assigneeRank) > RankLevel(byId[t.teamId].leadRank)
    && (forall a, b :: 0 <= a < b < |t.dependencies| ==> t.dependencies[a] != t.dependencies[b])
    && t.id !in t.dependencies
  }

  lemma TaskFitsIs(teams: seq<Team>, t: PlanTask)
    requires TeamsOk(teams)
    ensures TaskFits(teams, t) <==> TaskOk(t, TeamMap(teams))
  {
    hide TeamMap, RankLevel;
    TeamMapKeys(teams);
    forall i | 0 <= i < |teams|
      ensures teams[i].id in TeamMap(teams) && TeamMap(teams)[teams[i].id] == teams[i]
    {
      TeamMapFinds(teams, i);
    }
  }

  ghost predicate DependencyRules(tasks: seq<PlanTask>) {
    forall t, d :: t in tasks && d in t.dependencies ==> exists u :: u in tasks && u.id == d
  }

  lemma DependencyRulesAre(tasks: seq<PlanTask>)
    ensures DependenciesOk(tasks) <==> DependencyRules(tasks)
  {
    forall d: Id
      ensures d in TaskIds(tasks) <==> exists u :: u in tasks && u.id == d
    {
      if d in TaskIds(tasks) {
        var i :| 0 <= i < |tasks| && TaskIds(tasks)[i] == d;
        assert tasks[i] in tasks;
      }
      if exists u :: u in tasks && u.id == d {
        var u :| u in tasks && u.id == d;
        var i :| 0 <= i < |tasks| && tasks[i] == u;
        assert TaskIds(tasks)[i] == d;
      }
    }
    if DependenciesOk(tasks) {
      forall t, d | t in tasks && d in t.dependencies
        ensures exists u :: u in tasks && u.id == d
      {
        var i :| 0 <= i < |tasks| && tasks[i] == t;
        assert d in tasks[i].dependencies && d in TaskIds(tasks);
      }
    }
    if DependencyRules(tasks) {
      forall i, d | 0 <= i < |tasks| && d in tasks[i].dependencies
        ensures d in TaskIds(tasks)
      {
        assert tasks[i] in tasks;
      }
    }
  }

  // ---------------------------------------------------------------- reports

  function Children(p: Plan, id: Id): set<int> { set i | 0 <= i < |p.teams| && p.teams[i].parent == Some(id) }

  function DirectTasks(p: Plan, id: Id): set<int> { set i | 0 <= i < |p.tasks| && p.tasks[i].teamId == id }

  /** Somebody reports to every team, not a single team alone, and not more than allowed. */
  ghost predicate ReportRules(p: Plan, c: Config) {
    forall t :: t in p.teams ==>
      var children, tasks := |Children(p, t.id)|, |DirectTasks(p, t.id)|;
      1 <= children + tasks <= c.maxDirectReports && (tasks == 0 ==> children >= 2)
  }

  lemma ReportsAre(p: Plan, id: Id)
    ensures Count(Parents(p.teams), Some(id)) == |Children(p, id)|
    ensures Count(Assignments(p.tasks), Some(id)) == |DirectTasks(p, id)|
  {
    CountPlaces(Parents(p.teams), Some(id));
    CountPlaces(Assignments(p.tasks), Some(id));
    assert Children(p, id) == set i | 0 <= i < |Parents(p.teams)| && Parents(p.teams)[i] == Some(id);
    assert DirectTasks(p, id) == set i | 0 <= i < |Assignments(p.tasks)| && Assignments(p.tasks)[i] == Some(id);
  }

  lemma ReportRulesAre(p: Plan, c: Config)
    ensures ReportsOk(p, c) <==> ReportRules(p, c)
  {
    hide Count;
    forall id
      ensures Count(Parents(p.teams), Some(id)) == |Children(p, id)|
      ensures Count(Assignments(p.tasks), Some(id)) == |DirectTasks(p, id)|
    {
      ReportsAre(p, id);
    }
    hide Children, DirectTasks, Parents, Assignments;
    if ReportRules(p, c) {
      forall i | 0 <= i < |p.teams|
        ensures TeamReportsOk(Count(Parents(p.teams), Some(p.teams[i].id)),
                              Count(Assignments(p.tasks), Some(p.teams[i].id)), c)
      {
        assert p.teams[i] in p.teams;
      }
    }
  }

  // ---------------------------------------------------------------- cycles

  /** Tasks each of which depends on the next one. */
  ghost predicate DependencyLine(tasks: seq<PlanTask>, line: seq<nat>) {
    line != [] && (forall k :: 0 <= k < |line| ==> line[k] < |tasks|) &&
    forall k, l :: 0 <= k < |line| && 0 <= l < |line| && l == k + 1 ==>
      tasks[line[l]].id in tasks[line[k]].dependencies
  }

  ghost predicate NoCycle(tasks: seq<PlanTask>) {
    forall line :: DependencyLine(tasks, line) && |line| > 1 ==> line[0] != line[|line| - 1]
  }

  ghost predicate UniqueIds(tasks: seq<PlanTask>) {
    forall a, b :: 0 <= a < b < |tasks| ==> tasks[a].id != tasks[b].id
  }

  lemma {:induction false} TaskGraphFinds(tasks: seq<PlanTask>, i: nat)
    requires i < |tasks| && UniqueIds(tasks)
    ensures tasks[i].id in TaskGraph(tasks) && TaskGraph(tasks)[tasks[i].id] == tasks[i].dependencies
    decreases |tasks|
  {
    var last := |tasks| - 1;
    if i < last {
      TaskGraphFinds(tasks[..last], i);
    }
  }

  lemma CyclesAre(tasks: seq<PlanTask>)
    requires UniqueIds(tasks)
    ensures Acyclic(TaskGraph(tasks)) <==> NoCycle(tasks)
  {
    hide TaskGraph, IsPath, DependencyLine, UniqueIds;
    var g := TaskGraph(tasks);
    if Acyclic(g) {
      forall line | DependencyLine(tasks, line) && |line| > 1
        ensures line[0] != line[|line| - 1]
      {
        var path := PathOf(tasks, line);
        assert !IsCycle(g, path);
      }
    }
    if NoCycle(tasks) {
      forall path | IsCycle(g, path)
        ensures false
      {
        var line := TasksOf(tasks, path);
        SameTask(tasks, line[0], line[|line| - 1]);
      }
    }
  }

  lemma SameTask(tasks: seq<PlanTask>, i: nat, j: nat)
    requires UniqueIds(tasks)
    requires i < |tasks| && j < |tasks| && tasks[i].id == tasks[j].id
    ensures i == j
  {}

  lemma PathOf(tasks: seq<PlanTask>, line: seq<nat>) returns (path: seq<Id>)
    requires UniqueIds(tasks)
    requires DependencyLine(tasks, line)
    ensures IsPath(TaskGraph(tasks), path) && |path| == |line|
    ensures forall k :: 0 <= k < |line| ==> line[k] < |tasks| && path[k] == tasks[line[k]].id
  {
    hide TaskGraph;
    path := seq(|line|, k requires 0 <= k < |line| => tasks[line[k]].id);
    forall k | 0 <= k < |line|
      ensures path[k] in TaskGraph(tasks) && TaskGraph(tasks)[path[k]] == tasks[line[k]].dependencies
    {
      TaskGraphFinds(tasks, line[k]);
    }
  }

  lemma TasksOf(tasks: seq<PlanTask>, path: seq<Id>) returns (line: seq<nat>)
    requires UniqueIds(tasks) && IsPath(TaskGraph(tasks), path)
    ensures DependencyLine(tasks, line) && |line| == |path|
    ensures forall k :: 0 <= k < |line| ==> line[k] < |tasks| && tasks[line[k]].id == path[k]
  {
    hide TaskGraph;
    TaskGraphNodes(tasks);
    forall i | 0 <= i < |tasks|
      ensures tasks[i].id in TaskGraph(tasks) && TaskGraph(tasks)[tasks[i].id] == tasks[i].dependencies
    {
      TaskGraphFinds(tasks, i);
    }
    line := [];
    for k := 0 to |path|
      invariant |line| == k
      invariant forall l :: 0 <= l < k ==> line[l] < |tasks| && tasks[line[l]].id == path[l]
    {
      assert path[k] in TaskGraph(tasks);
      var i :| 0 <= i < |tasks| && tasks[i].id == path[k];
      line := line + [i];
    }
    forall k, l | 0 <= k < |line| && 0 <= l < |line| && l == k + 1
      ensures tasks[line[l]].id in tasks[line[k]].dependencies
    {
      assert path[l] in TaskGraph(tasks)[path[k]];
    }
  }

  // ---------------------------------------------------------------- the plan

  /** All the rules a plan has to meet. */
  ghost predicate Rules(p: Plan, c: Config) {
    && p.sound && 1 <= |p.tasks| <= c.maxTasks && 1 <= |p.teams| <= c.maxTeams
    && TeamRules(p.teams)
    && (exists r :: IsOnlyRoot(p.teams, r))
    && ParentRules(p.teams)
    && (forall line :: ReportingLine(p.teams, line) ==> |line| <= c.maxHierarchyDepth + 1)
    && TaskRules(p) && DependencyRules(p.tasks) && ReportRules(p, c) && NoCycle(p.tasks)
  }

  /** The checks of the validation, together, are these rules. */
  lemma PlanIsAcceptedByRules(p: Plan, c: Config)
    ensures EarlierChecks(p, c) && Acyclic(TaskGraph(p.tasks)) <==> Rules(p, c)
  {
    hide TeamRules, IsOnlyRoot, ParentRules, ReportingLine, TaskRules, DependencyRules, ReportRules, NoCycle;
    hide TeamsOk, OneRoot, ParentsOk, ShallowEnough, DependenciesOk, ReportsOk, Acyclic, TaskGraph, TeamMap;
    TeamRulesAre(p.teams);
    RootIs(p.teams);
    DependencyRulesAre(p.tasks);
    ReportRulesAre(p, c);
    if TeamsOk(p.teams) {
      ParentRulesAre(p.teams);
      DepthRuleIs(p.teams, c);
      TaskRulesAre(p);
      if TasksOk(p.tasks, TeamMap(p.teams)) {
        assert UniqueIds(p.tasks);
        CyclesAre(p.tasks);
      }
    }
  }

  /** Ranks from the top down. */
  lemma RanksFall()
    ensures RankLevel(Chairman) == 0 && RankLevel(ViceChair) == 1 && RankLevel(President) == 2
    ensures RankLevel(ExecutiveDirector) == 3 && RankLevel(Director) == 4 && RankLevel(GeneralManager) == 5
    ensures RankLevel(DeputyManager) == 6 && RankLevel(SectionChief) == 7 && RankLevel(AssistantManager) == 8
    ensures RankLevel(Staff) == 9 && RankLevel(Intern) == 10
  {}
}
