/** Which depth limits ever make a difference to the validation of a plan. */
module DepthLimit {
  import opened DependencyGraph
  import opened PlanValidation
  import opened Wrappers

  /** All checks but that of the depth limit. */
  ghost predicate OtherChecks(p: Plan, c: Config) {
    CountsOk(p, c) && TeamsOk(p.teams) && OneRoot(p.teams) && ParentsOk(p.teams) &&
    TasksOk(p.tasks, TeamMap(p.teams)) && DependenciesOk(p.tasks) && ReportsOk(p, c) && Acyclic(TaskGraph(p.tasks))
  }

  /** A limit of nine or more is idle: what passes the other checks is never too deep for it. */
  lemma NineIsIdle(p: Plan, c: Config)
    requires OtherChecks(p, c) && c.maxHierarchyDepth >= 9
    ensures ShallowEnough(p.teams, c)
  {
    hide ReportsOk, ParentsOk, TasksOk, TeamMap, Acyclic, CountsOk, OneRoot, DependenciesOk, TeamsOk;
    forall path | IsPath(TeamGraph(TeamMap(p.teams)), path)
      ensures |path| - 1 <= c.maxHierarchyDepth
    {
      RanksFallAlongPath(p.teams, path);
      LeadHasRoomBelow(p, c, path[0]);
    }
  }

  /** Nobody reports to the lowest rank, so it leads no team. */
  lemma LeadHasRoomBelow(p: Plan, c: Config, id: Id)
    requires TeamsOk(p.teams) && ParentsOk(p.teams) && TasksOk(p.tasks, TeamMap(p.teams)) && ReportsOk(p, c)
    requires id in TeamMap(p.teams)
    ensures RankLevel(TeamMap(p.teams)[id].leadRank) <= 9
  {
    hide TeamMap, RankLevel;
    TeamMapKeys(p.teams);
    var i :| 0 <= i < |p.teams| && p.teams[i].id == id;
    if Count(Assignments(p.tasks), Some(id)) > 0 {
      var k := CountFinds(Assignments(p.tasks), Some(id));
      assert RankLevel(p.tasks[k].assigneeRank) <= 10;
    } else {
      assert TeamReportsOk(Count(Parents(p.teams), Some(p.teams[i].id)), 0, c);
      var k := CountFinds(Parents(p.teams), Some(id));
      assert HasParent(p.teams[k]) && RankLevel(p.teams[k].leadRank) <= 10;
    }
  }

  lemma {:induction false} CountFinds(refs: seq<Option<Id>>, r: Option<Id>) returns (k: nat)
    requires Count(refs, r) > 0
    ensures k < |refs| && refs[k] == r
    decreases |refs|
  {
    if refs[0] == r {
      k := 0;
    } else {
      var rest := CountFinds(refs[1..], r);
      k := rest + 1;
    }
  }

  // ---------------------------------------------------------------- nine is the least such limit

  function Name(n: nat): Id { seq(n + 1, _ => 'a') }

  function RankAt(n: nat): (r: Rank)
    requires n <= 9
    ensures RankLevel(r) == n
  {
    match n
    case 0 => Chairman
    case 1 => ViceChair
    case 2 => President
    case 3 => ExecutiveDirector
    case 4 => Director
    case 5 => GeneralManager
    case 6 => DeputyManager
    case 7 => SectionChief
    case 8 => AssistantManager
    case _ => Staff
  }

  /** Ten teams, one below the other, each with one task. */
  function Line(): Plan {
    Plan(seq(10, i requires 0 <= i < 10 => Team(Name(i), if i == 0 then None else Some(Name(i - 1)), RankAt(i), true)),
         seq(10, i requires 0 <= i < 10 => PlanTask(Name(i), Name(i), Intern, [], true)), true)
  }

  /** With a limit of eight the depth check, and no other, stops this plan. */
  lemma EightIsNot(c: Config)
    requires c.maxTeams >= 10 && c.maxTasks >= 10 && c.maxDirectReports >= 2 && c.maxHierarchyDepth <= 8
    ensures OtherChecks(Line(), c) && !ShallowEnough(Line().teams, c)
  {
    hide TeamGraph, TaskGraph, TeamMap, RankLevel, Count;
    hide ParentsOk, TasksOk, OneRoot, ReportsOk, Acyclic, ShallowEnough;
    NamesDiffer();
    LineParents();
    LineTasks();
    LineCounts(c);
    LineHasNoDependencies();
    LineIsDeep(c);
  }

  lemma NamesDiffer()
    ensures forall i: nat, j: nat :: Name(i) == Name(j) ==> i == j
    ensures TeamsOk(Line().teams)
  {
    forall i: nat, j: nat | Name(i) == Name(j)
      ensures i == j
    {
      assert |Name(i)| == i + 1 && |Name(j)| == j + 1;
    }
    forall i | 0 <= i < 10
      ensures Line().teams[i].id != ""
    {
      assert |Name(i)| == i + 1;
    }
  }

  lemma LineTeam(i: nat)
    requires i < 10
    ensures Name(i) in TeamMap(Line().teams) && TeamMap(Line().teams)[Name(i)] == Line().teams[i]
  {
    hide TeamMap;
    NamesDiffer();
    TeamMapKeys(Line().teams);
    assert Line().teams[i].id == Name(i);
    TeamMapFinds(Line().teams, i);
  }

  lemma LineParents()
    ensures ParentsOk(Line().teams)
  {
    hide TeamMap, RankLevel, Name;
    var teams, byId := Line().teams, TeamMap(Line().teams);
    forall i | 0 <= i < 10 && HasParent(teams[i])
      ensures teams[i].parent.value in byId
      ensures RankLevel(teams[i].leadRank) > RankLevel(byId[teams[i].parent.value].leadRank)
    {
      LineTeam(i - 1);
    }
  }

  lemma LineTasks()
    ensures TasksOk(Line().tasks, TeamMap(Line().teams))
  {
    hide TeamMap, Name;
    NamesDiffer();
    var tasks, byId := Line().tasks, TeamMap(Line().teams);
    forall i | 0 <= i < 10
      ensures tasks[i].teamId in byId && RankLevel(tasks[i].assigneeRank) > RankLevel(byId[tasks[i].teamId].leadRank)
    {
      LineTeam(i);
    }
  }

  /** A reference that occurs at one place only. */
  lemma {:induction false} CountOne(refs: seq<Option<Id>>, r: Option<Id>, k: int)
    requires forall i :: 0 <= i < |refs| ==> (refs[i] == r <==> i == k)
    ensures Count(refs, r) == if 0 <= k < |refs| then 1 else 0
    decreases |refs|
  {
    if refs != [] {
      CountOne(refs[1..], r, k - 1);
    }
  }

  lemma LineCounts(c: Config)
    requires c.maxDirectReports >= 2
    ensures OneRoot(Line().teams) && ReportsOk(Line(), c)
  {
    hide Count;
    NamesDiffer();
    var parents, assignments := Parents(Line().teams), Assignments(Line().tasks);
    CountOne(parents, None, 0);
    forall i | 0 <= i < 10
      ensures TeamReportsOk(Count(parents, Some(Name(i))), Count(assignments, Some(Name(i))), c)
    {
      CountOne(parents, Some(Name(i)), i + 1);
      CountOne(assignments, Some(Name(i)), i);
    }
  }

  lemma {:induction false} NoDependencies(tasks: seq<PlanTask>)
    requires forall i :: 0 <= i < |tasks| ==> tasks[i].dependencies == []
    ensures forall v :: v in TaskGraph(tasks) ==> TaskGraph(tasks)[v] == []
  {
    if tasks != [] {
      NoDependencies(tasks[..|tasks| - 1]);
    }
  }

  lemma LineHasNoDependencies()
    ensures Acyclic(TaskGraph(Line().tasks))
  {
    hide TaskGraph;
    NoDependencies(Line().tasks);
    forall p | IsCycle(TaskGraph(Line().tasks), p)
      ensures false
    {
      assert p[1] in TaskGraph(Line().tasks)[p[0]];
    }
  }

  /** From the lowest team up to the root. */
  lemma LineIsDeep(c: Config)
    requires c.maxHierarchyDepth <= 8
    ensures !ShallowEnough(Line().teams, c)
  {
    hide TeamMap;
    var path := seq(10, k requires 0 <= k < 10 => Name(9 - k));
    forall k | 0 <= k < 10
      ensures path[k] in TeamGraph(TeamMap(Line().teams))
      ensures k < 9 ==> path[k + 1] in TeamGraph(TeamMap(Line().teams))[path[k]]
    {
      LineTeam(9 - k);
      if k < 9 {
        assert HasParent(Line().teams[9 - k]) by {
          assert |Name(8 - k)| == 9 - k;
        }
      }
    }
    assert IsPath(TeamGraph(TeamMap(Line().teams)), path);
  }
}
