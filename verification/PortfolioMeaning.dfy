/** Who takes part in a task, which specialist and which skills they get, and what a stored portfolio must be like:
    spelled out from the texts and numbers of the program. */
module PortfolioMeaning {
  import opened PortfolioIndex
  import opened PortfolioOrder
  import opened PortfolioProofs
  import opened PortfolioRestore
  import opened SkillPortfolio
  import opened Wrappers

  // ---------------------------------------------------------------- participants

  predicate IsParticipant(p: Participant, owner: Owner, role: Role, input: Input, hint: Option<string>) {
    p.owner == owner && p.role == role && p.input == input.(hint := hint)
  }

  /** The hint of validator number n. */
  function HintOf(security: bool, n: nat): string {
    if n % 3 == 0 then "failure-mode-critic"
    else if security then if n % 3 == 1 then "security-remediation-verifier" else "evidence-auditor"
    else if n % 3 == 1 then "evidence-auditor" else "requirements-auditor"
  }

  lemma ValidatorIs(input: Input, n: nat)
    ensures IsParticipant(ValidatorAt(input, n), OwnerValidator(n + 1), Validator, input,
                          Some(HintOf(input.security, n + 1)))
  {
    if n % 3 == 0 {
    } else if n % 3 == 1 {
    } else {
    }
  }

  /** The worker keeps its hint unless the work is about security; manager and validators always get one, and the hints
      of the validators go round. */
  lemma ParticipantsAre(h: Harness, input: Input)
    ensures var ps, security := Participants(h, input), input.security;
            |ps| == 2 + (if input.highRisk then h.validatorsHighRisk else h.validatorsLowRisk) &&
            IsParticipant(ps[0], OwnerWorker, Worker, input,
                          if security then Some("application-security-red-team") else input.hint) &&
            IsParticipant(ps[1], OwnerManager, Manager, input,
                          Some(if security then "security-remediation-verifier" else "accountable-manager")) &&
            forall k :: 2 <= k < |ps| ==>
              IsParticipant(ps[k], OwnerValidator(k - 1), Validator, input, Some(HintOf(security, k - 1)))
  {
    WorkerAndManagerAre(input);
    hide ValidatorAt, HintOf, WorkerOf, ManagerOf, IsParticipant;
    var ps := Participants(h, input);
    forall k | 2 <= k < |ps|
      ensures IsParticipant(ps[k], OwnerValidator(k - 1), Validator, input, Some(HintOf(input.security, k - 1)))
    {
      ValidatorIs(input, k - 2);
    }
  }

  lemma WorkerAndManagerAre(input: Input)
    ensures IsParticipant(WorkerOf(input), OwnerWorker, Worker, input,
                          if input.security then Some("application-security-red-team") else input.hint)
    ensures IsParticipant(ManagerOf(input), OwnerManager, Manager, input,
                          Some(if input.security then "security-remediation-verifier" else "accountable-manager"))
  {}

  // ---------------------------------------------------------------- specialists

  /** A specialist for the role, of this name if one is given. */
  ghost predicate Serves(h: Harness, k: nat, role: Role, name: Option<string>)
    requires k < |h.specialists|
  {
    role in h.specialists[k].roles && (name.Some? ==> h.specialists[k].id == name.value)
  }

  ghost predicate Exists(h: Harness, role: Role, name: string) {
    exists k :: 0 <= k < |h.specialists| && Serves(h, k, role, Some(name))
  }

  /** Specialist k is the first for the role, in the department if that is asked for. */
  ghost predicate IsFirst(h: Harness, k: nat, role: Role, input: Input, anyDepartment: bool) {
    k < |h.specialists| && Fits(h, k, role, input, anyDepartment) &&
    forall j :: 0 <= j < k ==> !Fits(h, j, role, input, anyDepartment)
  }

  ghost predicate Fits(h: Harness, k: nat, role: Role, input: Input, anyDepartment: bool)
    requires k < |h.specialists|
  {
    Serves(h, k, role, None) && (anyDepartment || h.fits(h.specialists[k].id, input))
  }

  lemma {:induction false} FindNamed(h: Harness, role: Role, input: Input, name: string, i: nat)
    requires i <= |h.specialists|
    ensures FindSpecialist(h, role, input, Some(name), false, i) ==
              if exists k :: i <= k < |h.specialists| && Serves(h, k, role, Some(name)) then Some(name) else None
    decreases |h.specialists| - i
  {
    if i < |h.specialists| {
      FindNamed(h, role, input, name, i + 1);
      assert Serves(h, i, role, Some(name)) <==>
             role in h.specialists[i].roles && Some(name) == Some(h.specialists[i].id);
    }
  }

  lemma {:induction false} FindFirst(h: Harness, role: Role, input: Input, anyDepartment: bool, i: nat) returns (k: nat)
    requires i <= |h.specialists| && forall j :: 0 <= j < i ==> !Fits(h, j, role, input, anyDepartment)
    ensures var r := FindSpecialist(h, role, input, None, anyDepartment, i);
            if r.Some? then IsFirst(h, k, role, input, anyDepartment) && r == Some(h.specialists[k].id)
            else forall j :: 0 <= j < |h.specialists| ==> !Fits(h, j, role, input, anyDepartment)
    decreases |h.specialists| - i
  {
    k := i;
    if i < |h.specialists| && !Fits(h, i, role, input, anyDepartment) {
      k := FindFirst(h, role, input, anyDepartment, i + 1);
    }
  }

  /** The hint counts if it names a specialist for the role, then the guess from the text, then the first specialist
      for the role in the department, then the first for the role at all. */
  lemma ResolveIs(h: Harness, role: Role, input: Input) returns (k: nat)
    ensures var r, guess := Resolve(h, role, input), h.guess(role, input);
            if input.hint.Some? && Exists(h, role, input.hint.value) then r == input.hint
            else if guess.Some? && Exists(h, role, guess.value) then r == guess
            else if r.Some? then
              (IsFirst(h, k, role, input, false) ||
               (IsFirst(h, k, role, input, true) && NoneFits(h, role, input, false))) &&
              k < |h.specialists| && r == Some(h.specialists[k].id)
            else NoneFits(h, role, input, true)
  {
    hide FindSpecialist, Fits, Serves;
    if input.hint.Some? {
      FindNamed(h, role, input, input.hint.value, 0);
    }
    if h.guess(role, input).Some? {
      FindNamed(h, role, input, h.guess(role, input).value, 0);
    }
    k := FindFirst(h, role, input, false, 0);
    if FindSpecialist(h, role, input, None, false, 0).None? {
      k := FindFirst(h, role, input, true, 0);
    }
  }

  ghost predicate NoneFits(h: Harness, role: Role, input: Input, anyDepartment: bool) {
    forall j :: 0 <= j < |h.specialists| ==> !Fits(h, j, role, input, anyDepartment)
  }

  // ---------------------------------------------------------------- the choice of skills

  predicate Qualifies(h: Harness, role: Role, input: Input, id: SkillId) {
    id in h.catalog && (h.catalog[id].roles == {} || role in h.catalog[id].roles) && h.relevant(role, input, id)
  }

  /** The choice of a participant is made of the first n skills in its order: it has those that are known, meant for the
      role and relevant, and it goes on to the end of the order unless it is full. */
  lemma SelectIs(h: Harness, role: Role, input: Input, maxSkills: nat) returns (n: nat)
    ensures var order, chosen := h.order(role, input), Select(h, role, input, maxSkills);
            n <= |order| && |chosen| <= maxSkills && (n == |order| || |chosen| == maxSkills) &&
            forall x :: x in chosen <==> x in order[..n] && Qualifies(h, role, input, x)
  {
    n := ChosenFrom(h, role, input, h.order(role, input), maxSkills);
  }

  lemma {:induction false} ChosenFrom(h: Harness, role: Role, input: Input, ranked: seq<SkillId>, maxSkills: nat)
    returns (n: nat)
    ensures var all := Chosen(h, role, input, ranked);
            var chosen := if |all| <= maxSkills then all else all[..maxSkills];
            n <= |ranked| && (n == |ranked| || |chosen| == maxSkills) &&
            forall x :: x in chosen <==> x in ranked[..n] && Qualifies(h, role, input, x)
    decreases |ranked|
  {
    n := 0;
    if ranked != [] && maxSkills > 0 {
      var rest := Chosen(h, role, input, ranked[1..]);
      var first := Qualifies(h, role, input, ranked[0]);
      var left := if first then maxSkills - 1 else maxSkills;
      var m := ChosenFrom(h, role, input, ranked[1..], left);
      n := m + 1;
      assert ranked[..n] == [ranked[0]] + ranked[1..][..m];
      var chosen := if |rest| <= left then rest else rest[..left];
      var all := Chosen(h, role, input, ranked);
      assert all == (if first then [ranked[0]] else []) + rest;
      assert (if |all| <= maxSkills then all else all[..maxSkills]) == (if first then [ranked[0]] else []) + chosen;
    }
  }

  // ---------------------------------------------------------------- what restoring demands

  predicate OwnerHasRole(owner: Owner, role: Role) {
    || (owner.OwnerWorker? && role == Worker)
    || (owner.OwnerManager? && role == Manager)
    || (owner.OwnerValidator? && owner.number >= 1 && role == Validator)
  }

  /** The reference names a skill of the catalogue in the same version, meant for the role. */
  predicate Pinned(h: Harness, role: Role, ref: Ref) {
    ref.id in h.catalog &&
    var skill := h.catalog[ref.id];
    skill.version == ref.version && skill.hash == ref.hash && (skill.roles == {} || role in skill.roles)
  }

  /** Of several specialists with one name the last counts. */
  ghost predicate NamesSpecialist(h: Harness, name: string, role: Role) {
    exists k :: 0 <= k < |h.specialists| && h.specialists[k].id == name && role in h.specialists[k].roles &&
      forall j :: k < j < |h.specialists| ==> h.specialists[j].id != name
  }

  /** No two places in the assignments hold the same skill. */
  ghost predicate NoSkillTwice(assignments: seq<Assignment>) {
    forall i, m, j, n :: 0 <= i < |assignments| && 0 <= j < |assignments| ==>
      SameSkill(assignments[i], m, assignments[j], n) ==> i == j && m == n
  }

  predicate SameSkill(a: Assignment, m: int, b: Assignment, n: int) {
    0 <= m < |a.skills| && 0 <= n < |b.skills| && a.skills[m].id == b.skills[n].id
  }

  ghost predicate NoOwnerTwice(assignments: seq<Assignment>) {
    forall i, j :: 0 <= i < |assignments| && 0 <= j < |assignments| && assignments[i].owner == assignments[j].owner ==>
      i == j
  }

  ghost predicate AssignmentPinned(h: Harness, a: Assignment) {
    OwnerHasRole(a.owner, a.role) && NamesSpecialist(h, a.specialist, a.role) && |a.skills| <= h.maxPerAgent &&
    forall ref :: ref in a.skills ==> Pinned(h, a.role, ref)
  }

  /** A stored portfolio is taken over exactly if its identity, policy, limits and telemetry are in order, every
      assignment is pinned to the catalogue and to a specialist, no owner and no skill occurs twice, the index passes,
      and the identity is that of the contents. */
  lemma AcceptableIs(h: Harness, p: Portfolio)
    ensures Acceptable(h, p) <==>
              h.isIdentity(p.portfolioId) && p.policy == h.policy &&
              0 <= p.maxUnique <= h.maxUniquePerTask && |p.uniqueIds| <= p.maxUnique && p.charsAvoided >= 0 &&
              (forall a :: a in p.assignments ==> AssignmentPinned(h, a)) &&
              NoOwnerTwice(p.assignments) && NoSkillTwice(p.assignments) &&
              SameIndex(AllIds(p.assignments, |p.assignments|), p.uniqueIds) &&
              h.identity(Portfolio(p.taskId, "", p.policy, p.maxUnique, [], 0, p.assignments)) == p.portfolioId
  {
    hide SameIndex, AssignmentOk, AssignmentPinned, AllIds, NoSkillTwice, Distinct;
    assert p.(portfolioId := "", uniqueIds := [], charsAvoided := 0) ==
      Portfolio(p.taskId, "", p.policy, p.maxUnique, [], 0, p.assignments);
    AllDistinct(p.assignments);
    forall a | a in p.assignments
      ensures AssignmentPinned(h, a) <==> AssignmentOk(h, a)
    {
      PinnedIs(h, a);
    }
    assert (forall a :: a in p.assignments ==> AssignmentPinned(h, a)) <==>
           (forall i :: 0 <= i < |p.assignments| ==> AssignmentOk(h, p.assignments[i]));
  }

  lemma PinnedIs(h: Harness, a: Assignment)
    ensures AssignmentPinned(h, a) <==> AssignmentOk(h, a)
  {
    SpecialistIs(h, a.specialist, a.role);
    hide SpecialistOk, NamesSpecialist;
    if AssignmentPinned(h, a) {
      forall i | 0 <= i < |a.skills|
        ensures RefOk(h, a.role, a.skills[i])
      {
        assert a.skills[i] in a.skills;
      }
    }
  }

  lemma SpecialistIs(h: Harness, name: string, role: Role)
    ensures NamesSpecialist(h, name, role) <==> SpecialistOk(h, name, role)
  {}

  /** Where the skills of the first n assignments are in the list of all of them. */
  lemma {:induction false} AllIdsAt(assignments: seq<Assignment>, n: nat, i: nat, m: nat) returns (k: nat)
    requires i < n <= |assignments| && m < |assignments[i].skills|
    ensures k < |AllIds(assignments, n)| && AllIds(assignments, n)[k] == assignments[i].skills[m].id
    ensures k == |AllIds(assignments, i)| + m
    decreases n
  {
    if i == n - 1 {
      k := |AllIds(assignments, n - 1)| + m;
    } else {
      k := AllIdsAt(assignments, n - 1, i, m);
    }
  }

  lemma {:induction false} AllIdsFrom(assignments: seq<Assignment>, n: nat, k: nat) returns (i: nat, m: nat)
    requires n <= |assignments| && k < |AllIds(assignments, n)|
    ensures i < n && m < |assignments[i].skills| && AllIds(assignments, n)[k] == assignments[i].skills[m].id
    ensures k == |AllIds(assignments, i)| + m
    decreases n
  {
    var before := |AllIds(assignments, n - 1)|;
    if k < before {
      i, m := AllIdsFrom(assignments, n - 1, k);
    } else {
      i, m := n - 1, k - before;
    }
  }

  lemma {:induction false} AllIdsGrow(assignments: seq<Assignment>, i: nat, j: nat)
    requires i < j <= |assignments|
    ensures |AllIds(assignments, i)| + |assignments[i].skills| <= |AllIds(assignments, j)|
    decreases j
  {
    if i < j - 1 {
      AllIdsGrow(assignments, i, j - 1);
    }
  }

  lemma AllDistinct(assignments: seq<Assignment>)
    ensures NoSkillTwice(assignments) <==> Distinct(AllIds(assignments, |assignments|))
  {
    hide AllIds;
    var all := AllIds(assignments, |assignments|);
    if NoSkillTwice(assignments) {
      forall a, b | 0 <= a < b < |all|
        ensures all[a] != all[b]
      {
        var i, m := AllIdsFrom(assignments, |assignments|, a);
        var j, n := AllIdsFrom(assignments, |assignments|, b);
        assert SameSkill(assignments[i], m, assignments[j], n) ==> i == j && m == n;
      }
    }
    if Distinct(all) {
      forall i, m, j, n | 0 <= i < |assignments| && 0 <= j < |assignments| &&
        SameSkill(assignments[i], m, assignments[j], n)
        ensures i == j && m == n
      {
        var a := AllIdsAt(assignments, |assignments|, i, m);
        var b := AllIdsAt(assignments, |assignments|, j, n);
        if i < j {
          AllIdsGrow(assignments, i, j);
        } else if j < i {
          AllIdsGrow(assignments, j, i);
        }
      }
    }
  }

  // ---------------------------------------------------------------- what a plan saves

  lemma {:induction false} CharsConcat(h: Harness, a: seq<SkillId>, b: seq<SkillId>)
    ensures Chars(h, a + b) == Chars(h, a) + Chars(h, b)
    decreases |a|
  {
    if a == [] {
      assert a + b == b;
    } else {
      CharsConcat(h, a[1..], b);
      assert (a + b)[1..] == a[1..] + b;
    }
  }

  /** Different skills out of a choice have no more characters than the choice. */
  lemma {:induction false} FewerChars(h: Harness, owned: seq<SkillId>, selection: seq<SkillId>)
    requires Distinct(owned) && forall x :: x in owned ==> x in selection
    ensures Chars(h, owned) <= Chars(h, selection)
    decreases |owned|
  {
    if owned != [] {
      assert owned[0] in owned;
      var k :| 0 <= k < |selection| && selection[k] == owned[0];
      var rest := selection[..k] + selection[k + 1..];
      assert selection == selection[..k] + ([selection[k]] + selection[k + 1..]);
      CharsConcat(h, selection[..k], [selection[k]] + selection[k + 1..]);
      CharsConcat(h, [selection[k]], selection[k + 1..]);
      CharsConcat(h, selection[..k], selection[k + 1..]);
      assert Chars(h, selection) == Chars(h, rest) + Chars(h, [selection[k]]);
      assert [selection[k]][1..] == [];
      forall x | x in owned[1..]
        ensures x in rest
      {
        assert x in owned;
        var i :| 0 <= i < |selection| && selection[i] == x;
        assert x != owned[0];
        assert i < k ==> rest[i] == x;
        assert i > k ==> rest[i - 1] == x;
      }
      FewerChars(h, owned[1..], rest);
    }
  }

  lemma {:induction false} FewerInTotal(h: Harness, owned: seq<seq<SkillId>>, chosen: seq<seq<SkillId>>)
    requires |owned| == |chosen| && forall i :: 0 <= i < |owned| ==> Chars(h, owned[i]) <= Chars(h, chosen[i])
    ensures TotalChars(h, owned) <= TotalChars(h, chosen)
    decreases |owned|
  {
    if owned != [] {
      FewerInTotal(h, owned[1..], chosen[1..]);
    }
  }

  /** The characters of all skills that the participants had chosen, one choice after the other. */
  function ChosenChars(h: Harness, input: Input): nat {
    var lanes := Lanes(h, Participants(h, input));
    TotalChars(h, seq(|lanes|, i requires 0 <= i < |lanes| => lanes[i].selection))
  }

  function HeldChars(h: Harness, p: Portfolio): nat {
    TotalChars(h, seq(|p.assignments|, i requires 0 <= i < |p.assignments| => Ids(p.assignments[i].skills)))
  }

  /** What is counted as avoided and what is assigned make up what was chosen; so the difference is never negative. */
  lemma AvoidedIsTheRest(h: Harness, taskId: string, input: Input)
    requires Build(h, taskId, input).Ok?
    ensures var p := Build(h, taskId, input).value; p.charsAvoided + HeldChars(h, p) == ChosenChars(h, input)
  {
    hide Resolve, Plan, Select, SharesOk, Sort, Participants, TotalChars, Chars, Distinct;
    var ps := Participants(h, input);
    var lanes := Lanes(h, ps);
    var s := Plan(lanes, h.maxUniquePerTask, h.before);
    var chosen := seq(|lanes|, i requires 0 <= i < |lanes| => lanes[i].selection);
    PlanIsMaximal(lanes, h.maxUniquePerTask, h.before);
    forall i | 0 <= i < |lanes|
      ensures |s.owned| == |lanes| && Chars(h, s.owned[i]) <= Chars(h, chosen[i])
    {
      OwnedWithinLane(lanes, h.maxUniquePerTask, s, i);
      SharesAreOwnedOnce(lanes, h.maxUniquePerTask, s);
      FewerChars(h, s.owned[i], lanes[i].selection);
    }
    SharesHaveLanes(lanes, h.maxUniquePerTask, s);
    FewerInTotal(h, s.owned, chosen);
    var p := Build(h, taskId, input).value;
    forall i | 0 <= i < |ps|
      ensures Ids(p.assignments[i].skills) == s.owned[i]
    {
      IdsOfRefs(h, s.owned[i]);
    }
    assert seq(|p.assignments|, i requires 0 <= i < |p.assignments| => Ids(p.assignments[i].skills)) == s.owned;
  }

  /** What is stored: one assignment for each participant, in order, with its specialist and the skills it was given,
      and the skills in use in the order of their names. */
  lemma BuiltIs(h: Harness, taskId: string, input: Input)
    requires Build(h, taskId, input).Ok?
    ensures var p, ps := Build(h, taskId, input).value, Participants(h, input);
            var shares := Plan(Lanes(h, ps), h.maxUniquePerTask, h.before);
            p.taskId == taskId && p.policy == h.policy && p.maxUnique == h.maxUniquePerTask &&
            |p.assignments| == |ps| == |shares.owned| &&
            (forall i :: 0 <= i < |ps| ==> GivenTo(h, ps[i], shares.owned[i], p.assignments[i])) &&
            multiset(p.uniqueIds) == multiset(shares.used) &&
            (StrictTotal(h.idBefore) ==> Ordered(h.idBefore, p.uniqueIds))
  {
    hide Resolve, Plan, Select, Sort, Participants, TotalChars, Chars;
    var ps := Participants(h, input);
    var shares := Plan(Lanes(h, ps), h.maxUniquePerTask, h.before);
    SortSame(h.idBefore, shares.used);
    if StrictTotal(h.idBefore) {
      SortOrders(h.idBefore, shares.used);
    }
    var p := Build(h, taskId, input).value;
    forall i | 0 <= i < |ps|
      ensures GivenTo(h, ps[i], shares.owned[i], p.assignments[i])
    {
      IdsOfRefs(h, shares.owned[i]);
    }
  }

  predicate GivenTo(h: Harness, p: Participant, owned: seq<SkillId>, a: Assignment) {
    a.owner == p.owner && a.role == p.role && Resolve(h, p.role, p.input) == Some(a.specialist) &&
    |a.skills| == |owned| && forall k :: 0 <= k < |owned| ==> a.skills[k].id == owned[k]
  }
}
