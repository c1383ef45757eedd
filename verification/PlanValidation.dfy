/** Validation of a plan: the team tree rules, the task rules and the dependency search. */
module PlanValidation {
  import opened DependencyGraph
  import TaskDepths
  import opened Wrappers

  datatype Rank =
    | Chairman | ViceChair | President | ExecutiveDirector | Director | GeneralManager
    | DeputyManager | SectionChief | AssistantManager | Staff | Intern

  /** Position in the rank ladder; 0 is the top. */
  function RankLevel(r: Rank): (level: nat)
    ensures level <= 10
  {
    match r
    case Chairman => 0
    case ViceChair => 1
    case President => 2
    case ExecutiveDirector => 3
    case Director => 4
    case GeneralManager => 5
    case DeputyManager => 6
    case SectionChief => 7
    case AssistantManager => 8
    case Staff => 9
    case Intern => 10
  }

  /** `sound` stands for the checks of a record's own texts and fixed vocabularies and, for teams and tasks, for the
      existence of the requirements of the plan that they refer to; requirements are not modelled. */
  datatype Team = Team(id: Id, parent: Option<Id>, leadRank: Rank, sound: bool)

  datatype PlanTask = PlanTask(id: Id, teamId: Id, assigneeRank: Rank, dependencies: seq<Id>, sound: bool)

  datatype Plan = Plan(teams: seq<Team>, tasks: seq<PlanTask>, sound: bool)

  datatype Config = Config(maxTasks: nat, maxTeams: nat, maxHierarchyDepth: nat, maxDirectReports: nat)

  // ---------------------------------------------------------------- the rules

  /** An empty parent id counts as no parent, but not as a root. */
  predicate HasParent(t: Team) { t.parent.Some? && t.parent.value != "" }

  predicate CountsOk(p: Plan, c: Config) {
    p.sound && 0 < |p.tasks| <= c.maxTasks && 0 < |p.teams| <= c.maxTeams
  }

  predicate TeamsOk(teams: seq<Team>) {
    (forall i :: 0 <= i < |teams| ==> teams[i].sound && teams[i].id != "" && teams[i].parent != Some(teams[i].id)) &&
    forall i, j :: 0 <= i < j < |teams| ==> teams[i].id != teams[j].id
  }

  function Parents(teams: seq<Team>): (r: seq<Option<Id>>)
    ensures |r| == |teams|
  {
    seq(|teams|, i requires 0 <= i < |teams| => teams[i].parent)
  }

  function Assignments(tasks: seq<PlanTask>): (r: seq<Option<Id>>)
    ensures |r| == |tasks|
  {
    seq(|tasks|, i requires 0 <= i < |tasks| => Some(tasks[i].teamId))
  }

  /** How many entries of refs are exactly r: child teams, direct tasks and roots are counted this way. */
  function Count(refs: seq<Option<Id>>, r: Option<Id>): nat {
    if refs == [] then 0 else (if refs[0] == r then 1 else 0) + Count(refs[1..], r)
  }

  predicate OneRoot(teams: seq<Team>) {
    Count(Parents(teams), None) == 1
  }

  function TeamMap(teams: seq<Team>): map<Id, Team> {
    if teams == [] then map[] else TeamMap(teams[..|teams| - 1])[teams[|teams| - 1].id := teams[|teams| - 1]]
  }

  predicate ParentsOk(teams: seq<Team>) {
    var byId := TeamMap(teams);
    forall i :: 0 <= i < |teams| && HasParent(teams[i]) ==>
      teams[i].parent.value in byId && RankLevel(teams[i].leadRank) > RankLevel(byId[teams[i].parent.value].leadRank)
  }

  predicate TasksOk(tasks: seq<PlanTask>, byId: map<Id, Team>) {
    (forall i :: 0 <= i < |tasks| ==>
      && tasks[i].sound && tasks[i].teamId in byId
      && RankLevel(tasks[i].assigneeRank) > RankLevel(byId[tasks[i].teamId].leadRank)
      && (forall a, b :: 0 <= a < b < |tasks[i].dependencies| ==> tasks[i].dependencies[a] != tasks[i].dependencies[b])
      && tasks[i].id !in tasks[i].dependencies) &&
    forall i, j :: 0 <= i < j < |tasks| ==> tasks[i].id != tasks[j].id
  }

  function TaskIds(tasks: seq<PlanTask>): (r: seq<Id>)
    ensures |r| == |tasks|
  {
    seq(|tasks|, i requires 0 <= i < |tasks| => tasks[i].id)
  }

  predicate DependenciesOk(tasks: seq<PlanTask>) {
    forall i, d :: 0 <= i < |tasks| && d in tasks[i].dependencies ==> d in TaskIds(tasks)
  }

  predicate ReportsOk(p: Plan, c: Config) {
    forall i :: 0 <= i < |p.teams| ==>
      TeamReportsOk(Count(Parents(p.teams), Some(p.teams[i].id)), Count(Assignments(p.tasks), Some(p.teams[i].id)), c)
  }

  predicate TeamReportsOk(children: nat, directTasks: nat, c: Config) {
    children + directTasks != 0 && !(directTasks == 0 && children == 1) && children + directTasks <= c.maxDirectReports
  }

  function TaskGraph(tasks: seq<PlanTask>): Graph {
    if tasks == [] then map[]
    else TaskGraph(tasks[..|tasks| - 1])[tasks[|tasks| - 1].id := tasks[|tasks| - 1].dependencies]
  }

  // ---------------------------------------------------------------- team depths

  function TeamGraph(byId: map<Id, Team>): Graph {
    map id | id in byId :: if HasParent(byId[id]) then [byId[id].parent.value] else []
  }

  datatype TeamVisit = Depth(depth: nat) | Cycle(path: seq<Id>) | Missing(id: Id)

  class TeamDepthSearch {
    const byId: map<Id, Team>
    var depths: map<Id, nat>
    var visiting: set<Id>
    var path: seq<Id>

    ghost predicate Valid()
      reads this
    {
      IsStack(TeamGraph(byId), path) && (forall id :: id in visiting <==> id in path) && depths.Keys !! visiting &&
      DepthMap(TeamGraph(byId), depths)
    }

    constructor (byId: map<Id, Team>)
      ensures Valid() && this.byId == byId && path == [] && depths == map[]
    {
      this.byId := byId;
      depths, visiting, path := map[], {}, [];
    }

    method Visit(id: Id) returns (result: TeamVisit)
      requires Valid() && (id in byId ==> CanPush(TeamGraph(byId), path, id))
      modifies this
      ensures result.Depth? ==> Valid() && path == old(path) && visiting == old(visiting)
      ensures result.Depth? ==> TaskDepths.Extends(old(depths), depths)
      ensures result.Depth? ==> id in depths && depths[id] == result.depth
      ensures result.Cycle? ==> IsCycle(TeamGraph(byId), result.path)
      ensures result.Missing? ==> id !in byId || !Closed(TeamGraph(byId))
      decreases byId.Keys - visiting
    {
      hide IsPath, IsCycle, DepthAt, DepthMap, IsStack, TeamGraph, Closed;
      TeamGraphNodes(byId);
      if id in depths {
        return Depth(depths[id]);
      }
      if id in visiting {
        var start := IndexOf(path, id);
        StackInGraph(TeamGraph(byId), path, id);
        StackClosesCycle(TeamGraph(byId), path, id, start);
        return Cycle(path[start..] + [id]);
      }
      if id !in byId {
        return Missing(id);
      }
      Enter(id);
      var team := byId[id];
      var depth := 0;
      if HasParent(team) {
        var visit := Visit(team.parent.value);
        if !visit.Depth? {
          MissingParent(byId, id);
          return visit;
        }
        depth := visit.depth + 1;
        assert depths[team.parent.value] + 1 == depth;
      }
      Leave(id, depth);
      result := Depth(depth);
    }

    method Enter(id: Id)
      requires Valid() && CanPush(TeamGraph(byId), path, id) && id !in visiting && id !in depths
      modifies this
      ensures Valid() && path == old(path) + [id] && visiting == old(visiting) + {id} && depths == old(depths)
    {
      hide IsPath, DepthMap, IsStack, TeamGraph;
      TaskDepths.PushKeepsStack(TeamGraph(byId), path, id);
      visiting := visiting + {id};
      path := path + [id];
    }

    method Leave(id: Id, depth: nat)
      requires Valid() && path != [] && path[|path| - 1] == id && id in byId
      requires forall w :: w in TeamGraph(byId)[id] ==> w in depths && depths[w] < depth
      requires depth == 0 || exists w :: w in TeamGraph(byId)[id] && w in depths && depths[w] + 1 == depth
      modifies this
      ensures Valid() && path == old(path)[..|old(path)| - 1] && visiting == old(visiting) - {id}
      ensures depths == old(depths)[id := depth] && TaskDepths.Extends(old(depths), depths)
    {
      hide IsPath, DepthMap, IsStack, TeamGraph;
      TaskDepths.PopKeepsStack(TeamGraph(byId), path);
      assert id in path;
      TeamGraphNodes(byId);
      TaskDepths.NewDepth(TeamGraph(byId), depths, id, depth);
      path := path[..|path| - 1];
      visiting := visiting - {id};
      depths := depths[id := depth];
    }
  }

  lemma TeamGraphNodes(byId: map<Id, Team>)
    ensures TeamGraph(byId).Keys == byId.Keys
    ensures forall id :: id in byId ==>
              TeamGraph(byId)[id] == if HasParent(byId[id]) then [byId[id].parent.value] else []
  {}

  lemma MissingParent(byId: map<Id, Team>, id: Id)
    requires id in byId && HasParent(byId[id])
    ensures byId[id].parent.value !in byId ==> !Closed(TeamGraph(byId))
  {
    var g, parent := TeamGraph(byId), byId[id].parent.value;
    if parent !in byId {
      assert id in g && parent in g[id] && parent !in g;
    }
  }

  lemma StackInGraph(g: Graph, stack: seq<Id>, id: Id)
    requires IsStack(g, stack) && id in stack
    ensures id in g
  {}

  method ComputeTeamDepths(teams: seq<Team>) returns (result: TeamVisit, depths: map<Id, nat>)
    ensures result.Depth? ==> depths.Keys == TeamMap(teams).Keys && DepthMap(TeamGraph(TeamMap(teams)), depths)
    ensures result.Cycle? ==> IsCycle(TeamGraph(TeamMap(teams)), result.path)
    ensures result.Missing? ==> !Closed(TeamGraph(TeamMap(teams)))
  {
    hide IsPath, IsCycle, DepthAt, IsStack;
    var byId := TeamMap(teams);
    var search := new TeamDepthSearch(byId);
    TeamMapKeys(teams);
    result := Depth(0);
    var i := 0;
    while i < |teams|
      invariant 0 <= i <= |teams|
      invariant search.Valid() && search.byId == byId && search.path == [] && fresh(search) && result.Depth?
      invariant forall k :: 0 <= k < i ==> teams[k].id in search.depths
    {
      result := search.Visit(teams[i].id);
      if !result.Depth? {
        return result, map[];
      }
      i := i + 1;
    }
    depths := search.depths;
    TaskDepths.DepthsOfNodes(TeamGraph(byId), depths);
  }

  lemma {:induction false} TeamMapKeys(teams: seq<Team>)
    ensures forall id :: id in TeamMap(teams) <==> exists i :: 0 <= i < |teams| && teams[i].id == id
    ensures forall id :: id in TeamMap(teams) ==> TeamMap(teams)[id].id == id
  {
    if teams != [] {
      var last := |teams| - 1;
      TeamMapKeys(teams[..last]);
      assert teams == teams[..last] + [teams[last]];
      forall id | id in TeamMap(teams)
        ensures exists i :: 0 <= i < |teams| && teams[i].id == id
      {
        if id != teams[last].id {
          assert id in TeamMap(teams[..last]);
          var i :| 0 <= i < |teams[..last]| && teams[..last][i].id == id;
          assert teams[i].id == id;
        }
      }
      forall i | 0 <= i < |teams|
        ensures teams[i].id in TeamMap(teams)
      {
        if i < last {
          assert teams[..last][i] == teams[i];
        }
      }
    }
  }

  lemma {:induction false} TeamMapFinds(teams: seq<Team>, i: nat)
    requires TeamsOk(teams) && i < |teams|
    ensures teams[i].id in TeamMap(teams) && TeamMap(teams)[teams[i].id] == teams[i]
  {
    var last := |teams| - 1;
    if i < last {
      assert TeamsOk(teams[..last]);
      TeamMapFinds(teams[..last], i);
    }
  }

  // ---------------------------------------------------------------- rank bounds depth

  /** Under the rank rule a team is never deeper than its lead's rank allows: at most 10. */
  lemma {:induction false} RankBoundsDepth(teams: seq<Team>, depths: map<Id, nat>, id: Id)
    requires TeamsOk(teams) && ParentsOk(teams) && DepthMap(TeamGraph(TeamMap(teams)), depths)
    requires id in depths
    ensures id in TeamMap(teams) && depths[id] <= RankLevel(TeamMap(teams)[id].leadRank) <= 10
    decreases depths[id]
  {
    var byId := TeamMap(teams);
    assert DepthAt(TeamGraph(byId), depths, id);
    TeamMapKeys(teams);
    if depths[id] > 0 {
      var parent :| parent in TeamGraph(byId)[id] && parent in depths && depths[parent] + 1 == depths[id];
      RankBoundsDepth(teams, depths, parent);
      ParentRanks(teams, id);
    }
  }

  lemma ParentRanks(teams: seq<Team>, id: Id)
    requires TeamsOk(teams) && ParentsOk(teams) && id in TeamMap(teams) && HasParent(TeamMap(teams)[id])
    ensures var byId := TeamMap(teams); var parent := byId[id].parent.value;
            parent in byId && RankLevel(byId[id].leadRank) > RankLevel(byId[parent].leadRank)
  {
    TeamMapKeys(teams);
    var i :| 0 <= i < |teams| && teams[i].id == id;
    TeamMapFinds(teams, i);
  }

  /** Along a path of parents ranks strictly rise. */
  lemma {:induction false} RanksFallAlongPath(teams: seq<Team>, p: seq<Id>)
    requires TeamsOk(teams) && ParentsOk(teams) && IsPath(TeamGraph(TeamMap(teams)), p)
    ensures RankLevel(TeamMap(teams)[p[|p| - 1]].leadRank) + |p| - 1 <= RankLevel(TeamMap(teams)[p[0]].leadRank)
    decreases |p|
  {
    if |p| > 1 {
      assert p[1] in TeamGraph(TeamMap(teams))[p[0]];
      ParentRanks(teams, p[0]);
      PathTail(TeamGraph(TeamMap(teams)), p);
      RanksFallAlongPath(teams, p[1..]);
    }
  }

  /** After the rank check, neither error of the depth computation can occur. */
  lemma RankedTeamsHaveDepths(teams: seq<Team>)
    requires TeamsOk(teams) && ParentsOk(teams)
    ensures Acyclic(TeamGraph(TeamMap(teams))) && Closed(TeamGraph(TeamMap(teams)))
  {
    var g := TeamGraph(TeamMap(teams));
    forall p | IsCycle(g, p)
      ensures false
    {
      RanksFallAlongPath(teams, p);
    }
    forall v, w | v in g && w in g[v]
      ensures w in g
    {
      ParentRanks(teams, v);
    }
  }

  // ---------------------------------------------------------------- how many teams a plan can have

  function TeamIds(teams: seq<Team>): (r: seq<Id>)
    ensures |r| == |teams|
  {
    seq(|teams|, i requires 0 <= i < |teams| => teams[i].id)
  }

  function Total(ids: seq<Id>, refs: seq<Option<Id>>): nat {
    if ids == [] then 0 else Count(refs, Some(ids[0])) + Total(ids[1..], refs)
  }

  /** Each reference is counted for at most one of several distinct ids. */
  lemma {:induction false} TotalStep(ids: seq<Id>, r: Option<Id>, refs: seq<Option<Id>>)
    requires forall i, j :: 0 <= i < j < |ids| ==> ids[i] != ids[j]
    ensures Total(ids, [r] + refs) == Total(ids, refs) + if r.Some? && r.value in ids then 1 else 0
    decreases |ids|
  {
    if ids != [] {
      TotalStep(ids[1..], r, refs);
      assert ([r] + refs)[1..] == refs;
    }
  }

  lemma {:induction false} TotalOfNothing(ids: seq<Id>)
    ensures Total(ids, []) == 0
  {
    if ids != [] {
      TotalOfNothing(ids[1..]);
    }
  }

  lemma {:induction false} TotalBounds(ids: seq<Id>, refs: seq<Option<Id>>)
    requires forall i, j :: 0 <= i < j < |ids| ==> ids[i] != ids[j]
    ensures Total(ids, refs) + Count(refs, None) <= |refs|
    decreases |refs|
  {
    if refs == [] {
      TotalOfNothing(ids);
    } else {
      TotalBounds(ids, refs[1..]);
      TotalStep(ids, refs[0], refs[1..]);
      assert refs == [refs[0]] + refs[1..];
    }
  }

  /** Teams that own at least one task directly. */
  function Owners(ids: seq<Id>, assignments: seq<Option<Id>>): (n: nat)
    ensures n <= |ids|
  {
    if ids == [] then 0
    else (if Count(assignments, Some(ids[0])) > 0 then 1 else 0) + Owners(ids[1..], assignments)
  }

  lemma {:induction false} OwnersAtMostTasks(ids: seq<Id>, assignments: seq<Option<Id>>)
    ensures Owners(ids, assignments) <= Total(ids, assignments)
  {
    if ids != [] {
      OwnersAtMostTasks(ids[1..], assignments);
    }
  }

  /** Every team without tasks of its own has two children. */
  lemma {:induction false} NonOwnersHaveChildren(ids: seq<Id>, parents: seq<Option<Id>>, assignments: seq<Option<Id>>,
      c: Config)
    requires forall i :: 0 <= i < |ids| ==>
             TeamReportsOk(Count(parents, Some(ids[i])), Count(assignments, Some(ids[i])), c)
    ensures 2 * (|ids| - Owners(ids, assignments)) <= Total(ids, parents)
  {
    if ids != [] {
      assert TeamReportsOk(Count(parents, Some(ids[0])), Count(assignments, Some(ids[0])), c);
      NonOwnersHaveChildren(ids[1..], parents, assignments, c);
    }
  }

  /** The hierarchy rules keep management small: fewer than twice as many teams as teams with work. */
  lemma TeamCountBound(p: Plan, c: Config)
    requires TeamsOk(p.teams) && OneRoot(p.teams) && ReportsOk(p, c)
    ensures |p.teams| <= 2 * Owners(TeamIds(p.teams), Assignments(p.tasks)) - 1
    ensures Owners(TeamIds(p.teams), Assignments(p.tasks)) <= |p.tasks|
    ensures |p.teams| <= 2 * |p.tasks| - 1
  {
    var ids := TeamIds(p.teams);
    TotalBounds(ids, Parents(p.teams));
    TotalBounds(ids, Assignments(p.tasks));
    OwnersAtMostTasks(ids, Assignments(p.tasks));
    NonOwnersHaveChildren(ids, Parents(p.teams), Assignments(p.tasks), c);
  }

  // ---------------------------------------------------------------- the whole validation

  datatype Rejection =
    | BadCounts | BadTeam | NotOneRoot | BadParent | TooDeep | BadTask
    | MissingDependency | BadReports | TaskCycle(path: seq<Id>)

  datatype Verdict = Accepted(depths: map<Id, nat>) | Rejected(why: Rejection)

  ghost predicate EarlierChecks(p: Plan, c: Config) {
    CountsOk(p, c) && TeamsOk(p.teams) && OneRoot(p.teams) && ParentsOk(p.teams) && ShallowEnough(p.teams, c) &&
    TasksOk(p.tasks, TeamMap(p.teams)) && DependenciesOk(p.tasks) && ReportsOk(p, c)
  }

  ghost predicate TreeOk(p: Plan, c: Config) {
    CountsOk(p, c) && TeamsOk(p.teams) && OneRoot(p.teams) && ParentsOk(p.teams)
  }

  /** No chain of parents is longer than the configured depth. */
  ghost predicate ShallowEnough(teams: seq<Team>, c: Config) {
    forall path :: IsPath(TeamGraph(TeamMap(teams)), path) ==> |path| - 1 <= c.maxHierarchyDepth
  }

  lemma DepthsMeasureShallowness(teams: seq<Team>, c: Config, depths: map<Id, nat>)
    requires depths.Keys == TeamMap(teams).Keys && DepthMap(TeamGraph(TeamMap(teams)), depths)
    ensures ShallowEnough(teams, c) <==> forall id :: id in depths ==> depths[id] <= c.maxHierarchyDepth
  {
    var g := TeamGraph(TeamMap(teams));
    if ShallowEnough(teams, c) {
      forall id | id in depths
        ensures depths[id] <= c.maxHierarchyDepth
      {
        var path := DepthIsReached(g, depths, id);
      }
    }
    if forall id :: id in depths ==> depths[id] <= c.maxHierarchyDepth {
      forall path | IsPath(g, path)
        ensures |path| - 1 <= c.maxHierarchyDepth
      {
        DepthBoundsPaths(g, depths, path);
      }
    }
  }

  lemma {:induction false} TaskGraphNodes(tasks: seq<PlanTask>)
    ensures forall id :: id in TaskGraph(tasks) <==> id in TaskIds(tasks)
    ensures forall id :: id in TaskGraph(tasks) ==>
              exists i :: 0 <= i < |tasks| && tasks[i].id == id && tasks[i].dependencies == TaskGraph(tasks)[id]
  {
    if tasks != [] {
      var last := |tasks| - 1;
      TaskGraphNodes(tasks[..last]);
      assert TaskIds(tasks) == TaskIds(tasks[..last]) + [tasks[last].id];
      forall id | id in TaskGraph(tasks)
        ensures exists i :: 0 <= i < |tasks| && tasks[i].id == id && tasks[i].dependencies == TaskGraph(tasks)[id]
      {
        if id == tasks[last].id {
          assert tasks[last].dependencies == TaskGraph(tasks)[id];
        } else {
          assert id in TaskGraph(tasks[..last]);
          var i :| 0 <= i < |tasks[..last]| && tasks[..last][i].id == id &&
                   tasks[..last][i].dependencies == TaskGraph(tasks[..last])[id];
          assert tasks[i].id == id && tasks[i].dependencies == TaskGraph(tasks)[id];
        }
      }
    }
  }

  lemma TaskGraphClosed(tasks: seq<PlanTask>)
    requires DependenciesOk(tasks)
    ensures Closed(TaskGraph(tasks))
  {
    TaskGraphNodes(tasks);
  }

  method ValidatePlan(p: Plan, c: Config) returns (verdict: Verdict)
    ensures verdict.Accepted? <==> EarlierChecks(p, c) && Acyclic(TaskGraph(p.tasks))
    ensures verdict.Accepted? ==>
              verdict.depths.Keys == TaskGraph(p.tasks).Keys && DepthMap(TaskGraph(p.tasks), verdict.depths)
    ensures verdict.Rejected? && verdict.why.TaskCycle? <==> EarlierChecks(p, c) && !Acyclic(TaskGraph(p.tasks))
    ensures verdict.Rejected? && verdict.why.TaskCycle? ==> IsCycle(TaskGraph(p.tasks), verdict.why.path)
    ensures verdict == Rejected(BadCounts) <==> !CountsOk(p, c)
    ensures verdict == Rejected(BadTeam) <==> CountsOk(p, c) && !TeamsOk(p.teams)
    ensures verdict == Rejected(NotOneRoot) <==> CountsOk(p, c) && TeamsOk(p.teams) && !OneRoot(p.teams)
    ensures verdict == Rejected(BadParent) <==>
              CountsOk(p, c) && TeamsOk(p.teams) && OneRoot(p.teams) && !ParentsOk(p.teams)
    ensures verdict == Rejected(TooDeep) <==> TreeOk(p, c) && !ShallowEnough(p.teams, c)
    ensures verdict == Rejected(BadTask) <==>
              TreeOk(p, c) && ShallowEnough(p.teams, c) && !TasksOk(p.tasks, TeamMap(p.teams))
    ensures verdict == Rejected(MissingDependency) <==>
              TreeOk(p, c) && ShallowEnough(p.teams, c) && TasksOk(p.tasks, TeamMap(p.teams)) &&
              !DependenciesOk(p.tasks)
    ensures verdict == Rejected(BadReports) <==>
              TreeOk(p, c) && ShallowEnough(p.teams, c) && TasksOk(p.tasks, TeamMap(p.teams)) &&
              DependenciesOk(p.tasks) && !ReportsOk(p, c)
  {
    hide IsPath, IsCycle, DepthAt, TeamGraph, TeamMap, TaskGraph, Count, ReportsOk, TasksOk, DependenciesOk, ParentsOk;
    if !CountsOk(p, c) { return Rejected(BadCounts); }
    if !TeamsOk(p.teams) { return Rejected(BadTeam); }
    if !OneRoot(p.teams) { return Rejected(NotOneRoot); }
    if !ParentsOk(p.teams) { return Rejected(BadParent); }
    var teamVisit, teamDepths := ComputeTeamDepths(p.teams);
    RankedTeamsHaveDepths(p.teams);
    // The rank rule has excluded both errors of the depth computation.
    assert teamVisit.Depth?;
    DepthsMeasureShallowness(p.teams, c, teamDepths);
    if exists id :: id in teamDepths && teamDepths[id] > c.maxHierarchyDepth { return Rejected(TooDeep); }
    if !TasksOk(p.tasks, TeamMap(p.teams)) { return Rejected(BadTask); }
    if !DependenciesOk(p.tasks) { return Rejected(MissingDependency); }
    if !ReportsOk(p, c) { return Rejected(BadReports); }
    TaskGraphClosed(p.tasks);
    TaskGraphNodes(p.tasks);
    var visit, depths := TaskDepths.TaskDepthSearch(TaskGraph(p.tasks), TaskIds(p.tasks));
    if visit.Cycle? { return Rejected(TaskCycle(visit.path)); }
    DepthsExcludeCycles(TaskGraph(p.tasks), depths);
    verdict := Accepted(depths);
  }

  /** A depth limit of 10 or more can never be the reason for a rejection. */
  lemma RanksKeepTeamsShallow(teams: seq<Team>, c: Config)
    requires TeamsOk(teams) && ParentsOk(teams) && c.maxHierarchyDepth >= 10
    ensures ShallowEnough(teams, c)
  {
    forall path | IsPath(TeamGraph(TeamMap(teams)), path)
      ensures |path| - 1 <= c.maxHierarchyDepth
    {
      RanksFallAlongPath(teams, path);
    }
  }
}
