/** Every portfolio that is planned under a valid configuration is accepted when it is restored under it. */
module PortfolioProofs {
  import opened PortfolioIndex
  import opened PortfolioRestore
  import opened SkillPortfolio
  import opened Wrappers

  // ---------------------------------------------------------------- lists without repetitions

  lemma {:induction false} CountOfDistinct<T>(items: seq<T>, x: T)
    requires Distinct(items)
    ensures multiset(items)[x] == if x in items then 1 else 0
    decreases |items|
  {
    if items != [] {
      var last := items[|items| - 1];
      CountOfDistinct(items[..|items| - 1], x);
      assert items == items[..|items| - 1] + [last];
      LastIsNew(items);
    }
  }

  lemma LastIsNew<T>(items: seq<T>)
    requires Distinct(items) && items != []
    ensures items[|items| - 1] !in items[..|items| - 1]
  {}

  lemma SameElements<T>(a: seq<T>, b: seq<T>)
    requires Distinct(a) && Distinct(b) && forall x :: x in a <==> x in b
    ensures multiset(a) == multiset(b)
  {
    forall x
      ensures multiset(a)[x] == multiset(b)[x]
    {
      CountOfDistinct(a, x);
      CountOfDistinct(b, x);
    }
  }

  function Flat(owned: seq<seq<SkillId>>, n: nat): seq<SkillId>
    requires n <= |owned|
  {
    if n == 0 then [] else Flat(owned, n - 1) + owned[n - 1]
  }

  ghost predicate OwnedOnce(owned: seq<seq<SkillId>>) {
    (forall i :: 0 <= i < |owned| ==> Distinct(owned[i])) &&
    forall i, j, x :: 0 <= i < |owned| && 0 <= j < |owned| && x in owned[i] && x in owned[j] ==> i == j
  }

  lemma {:induction false} FlatIs(owned: seq<seq<SkillId>>, n: nat)
    requires n <= |owned| && OwnedOnce(owned)
    ensures Distinct(Flat(owned, n))
    ensures forall x :: x in Flat(owned, n) <==> exists i :: 0 <= i < n && x in owned[i]
    decreases n
  {
    if n > 0 {
      FlatIs(owned, n - 1);
      var before, last := Flat(owned, n - 1), owned[n - 1];
      forall x | x in last
        ensures x !in before
      {
      }
      DistinctConcat(before, last);
    }
  }

  lemma DistinctConcat<T>(a: seq<T>, b: seq<T>)
    requires Distinct(a) && Distinct(b) && forall x :: x in b ==> x !in a
    ensures Distinct(a + b)
  {
    forall i, j | 0 <= i < j < |a + b|
      ensures (a + b)[i] != (a + b)[j]
    {
      if i < |a| <= j {
        assert (a + b)[j] in b && (a + b)[i] in a;
      }
    }
  }

  // ---------------------------------------------------------------- what is planned

  lemma {:induction false} ChosenIsEligible(h: Harness, role: Role, input: Input, ranked: seq<SkillId>)
    ensures forall x :: x in Chosen(h, role, input, ranked) ==> x in h.catalog && Eligible(h.catalog[x], role)
    decreases |ranked|
  {
    if ranked != [] {
      ChosenIsEligible(h, role, input, ranked[1..]);
    }
  }

  lemma ParticipantsAreProper(h: Harness, input: Input)
    ensures var ps := Participants(h, input);
            (forall i :: 0 <= i < |ps| ==> RoleOf(ps[i].owner) == Some(ps[i].role)) &&
            forall i, j :: 0 <= i < j < |ps| ==> ps[i].owner != ps[j].owner
  {}

  lemma SharesAreOwnedOnce(lanes: seq<Lane>, maxUnique: nat, s: Shares)
    requires SharesOk(lanes, maxUnique, s)
    ensures |s.owned| == |lanes| && OwnedOnce(s.owned) && Distinct(s.used)
    ensures forall x :: x in s.used <==> exists i :: 0 <= i < |s.owned| && x in s.owned[i]
  {
    forall i | 0 <= i < |s.owned|
      ensures Distinct(s.owned[i]) && forall x :: x in s.owned[i] ==> x in s.used
    {
      assert LaneOk(lanes[i], s.owned[i], s.used);
    }
  }

  lemma IdsOfRefs(h: Harness, ids: seq<SkillId>)
    ensures Ids(Refs(h, ids)) == ids
  {}

  lemma {:induction false} IdsOfAssignments(h: Harness, ps: seq<Participant>, owned: seq<seq<SkillId>>, n: nat)
    requires |ps| == |owned| && HaveSpecialists(h, ps) && n <= |ps|
    ensures AllIds(AssignmentsOf(h, ps, owned), n) == Flat(owned, n)
    decreases n
  {
    hide Resolve, RefOf, Ids, Refs;
    if n > 0 {
      IdsOfAssignments(h, ps, owned, n - 1);
      IdsOfRefs(h, owned[n - 1]);
      assert AssignmentsOf(h, ps, owned)[n - 1].skills == Refs(h, owned[n - 1]);
    }
  }

  lemma ResolvedIsOk(h: Harness, role: Role, input: Input)
    requires CatalogOk(h) && Resolve(h, role, input).Some?
    ensures SpecialistOk(h, Resolve(h, role, input).value, role)
  {
    var id := Resolve(h, role, input).value;
    hide Resolve;
    var k :| 0 <= k < |h.specialists| && h.specialists[k].id == id && role in h.specialists[k].roles;
    assert IsLastNamed(h.specialists, k, id);
  }

  /** One assignment of a plan is sound. */
  lemma AssignmentIsOk(h: Harness, p: Participant, owned: seq<SkillId>)
    requires CatalogOk(h)
    requires RoleOf(p.owner) == Some(p.role) && Resolve(h, p.role, p.input).Some?
    requires |owned| <= PerAgent(h) && forall x :: x in owned ==> x in Select(h, p.role, p.input, PerAgent(h))
    ensures AssignmentOk(h, Assignment(p.owner, p.role, Resolve(h, p.role, p.input).value, Refs(h, owned)))
  {
    ChosenIsEligible(h, p.role, p.input, h.order(p.role, p.input));
    ResolvedIsOk(h, p.role, p.input);
    hide Chosen, Resolve;
    forall i | 0 <= i < |owned|
      ensures RefOk(h, p.role, Refs(h, owned)[i])
    {
      assert owned[i] in Select(h, p.role, p.input, PerAgent(h));
    }
  }

  /** All assignments of a plan are sound, and their skills are those in use. */
  lemma AssignmentsAreOk(h: Harness, ps: seq<Participant>, s: Shares)
    requires CatalogOk(h) && HaveSpecialists(h, ps) && |s.owned| == |ps| &&
             SharesOk(Lanes(h, ps), h.maxUniquePerTask, s)
    requires forall i :: 0 <= i < |ps| ==> RoleOf(ps[i].owner) == Some(ps[i].role)
    requires forall i, j :: 0 <= i < j < |ps| ==> ps[i].owner != ps[j].owner
    ensures var assignments := AssignmentsOf(h, ps, s.owned);
            AssignmentsOk(h, assignments) && multiset(AllIds(assignments, |assignments|)) == multiset(s.used)
  {
    hide Resolve, Select, Refs, SharesOk, Distinct, OwnedOnce, AssignmentOk;
    var assignments := AssignmentsOf(h, ps, s.owned);
    SharesAreOwnedOnce(Lanes(h, ps), h.maxUniquePerTask, s);
    FlatIs(s.owned, |ps|);
    IdsOfAssignments(h, ps, s.owned, |ps|);
    SameElements(Flat(s.owned, |ps|), s.used);
    forall i | 0 <= i < |ps|
      ensures AssignmentOk(h, assignments[i])
    {
      OwnedWithinLane(Lanes(h, ps), h.maxUniquePerTask, s, i);
      AssignmentIsOk(h, ps[i], s.owned[i]);
    }
  }

  lemma OwnedWithinLane(lanes: seq<Lane>, maxUnique: nat, s: Shares, i: nat)
    requires SharesOk(lanes, maxUnique, s) && i < |lanes|
    ensures |s.owned| == |lanes| && |s.owned[i]| <= lanes[i].maxSkills &&
            forall x :: x in s.owned[i] ==> x in lanes[i].selection
  {
    assert LaneOk(lanes[i], s.owned[i], s.used);
  }

  /** Under a valid configuration planning succeeds exactly for valid task ids whose roles have specialists. */
  lemma BuildSucceeds(h: Harness, taskId: string, input: Input)
    requires ConfigOk(h)
    ensures Build(h, taskId, input).Ok? <==> h.isTaskId(taskId) && HaveSpecialists(h, Participants(h, input))
  {
    hide Resolve, Plan, Select;
    PlanIsMaximal(Lanes(h, Participants(h, input)), h.maxUniquePerTask, h.before);
  }

  /** What planning stores, restoring accepts. */
  lemma BuiltIsAcceptable(h: Harness, taskId: string, input: Input)
    requires ConfigOk(h) && CatalogOk(h) && Build(h, taskId, input).Ok?
    ensures var p := Build(h, taskId, input).value; Acceptable(h, p) && p.taskId == taskId
  {
    hide Resolve, Plan, Select, SharesOk, AssignmentsOk, AllIds, AssignmentsOf, Sort, TotalChars, Participants,
         HaveSpecialists, SameIndex;
    var ps := Participants(h, input);
    var lanes := Lanes(h, ps);
    var s := Plan(lanes, h.maxUniquePerTask, h.before);
    PlanIsMaximal(lanes, h.maxUniquePerTask, h.before);
    ParticipantsAreProper(h, input);
    AssignmentsAreOk(h, ps, s);
    SortSame(h.idBefore, s.used);
    UsedWithinCap(lanes, h.maxUniquePerTask, s);
    assert |multiset(Sort(h.idBefore, s.used))| == |multiset(s.used)|;
    var assignments := AssignmentsOf(h, ps, s.owned);
    SameHolds(AllIds(assignments, |assignments|), Sort(h.idBefore, s.used));
  }

  lemma UsedWithinCap(lanes: seq<Lane>, maxUnique: nat, s: Shares)
    requires SharesOk(lanes, maxUnique, s)
    ensures |s.used| <= maxUnique
  {}

  /** An index that passed names exactly the skills that the assignments hold, unless one of its names has a NUL in
      it or it is the one empty name, which passes for no skills at all. */
  lemma IndexIsTrue(h: Harness, p: Portfolio)
    requires Acceptable(h, p) && forall x :: x in h.catalog ==> x != "" && '\0' !in x
    ensures var held := AllIds(p.assignments, |p.assignments|);
            multiset(p.uniqueIds) == multiset(held) <==> NoNul(p.uniqueIds) && (held != [] || p.uniqueIds != [""])
  {
    hide SameIndex, Identity, Eligible, Distinct, Sort, Before, RoleOf, SpecialistOk;
    var held := AllIds(p.assignments, |p.assignments|);
    HeldAreKnown(h, p.assignments, |p.assignments|);
    assert "" !in held;
    if NoNul(p.uniqueIds) {
      SameIndexIs(held, p.uniqueIds);
    } else {
      var i :| 0 <= i < |p.uniqueIds| && '\0' in p.uniqueIds[i];
      assert p.uniqueIds[i] in multiset(p.uniqueIds) && p.uniqueIds[i] !in multiset(held);
    }
  }

  lemma {:induction false} HeldAreKnown(h: Harness, assignments: seq<Assignment>, n: nat)
    requires AssignmentsOk(h, assignments) && n <= |assignments|
    ensures forall x :: x in AllIds(assignments, n) ==> x in h.catalog
    decreases n
  {
    hide Eligible, Distinct, RoleOf, SpecialistOk;
    if n > 0 {
      HeldAreKnown(h, assignments, n - 1);
      assert AssignmentOk(h, assignments[n - 1]);
    }
  }

  /** A stored portfolio without skills is still taken over when its index is replaced by one empty name. */
  lemma EmptyNamePasses(h: Harness, p: Portfolio)
    requires Acceptable(h, p) && AllIds(p.assignments, |p.assignments|) == [] && p.maxUnique >= 1
    ensures Acceptable(h, p.(uniqueIds := [""]))
  {}
}
