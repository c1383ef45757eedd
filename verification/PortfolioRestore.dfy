/** From the participants of a task to a stored skill portfolio, and back: what planning stores under a
    configuration and a catalogue, restoring accepts under the same ones. */
module PortfolioRestore {
  import opened PortfolioIndex
  import opened SkillPortfolio
  import opened Wrappers

  datatype Owner = OwnerWorker | OwnerManager | OwnerValidator(number: nat) | OwnerOther(name: string)

  /** The role an owner name stands for. */
  function RoleOf(owner: Owner): Option<Role> {
    match owner
    case OwnerWorker => Some(Worker)
    case OwnerManager => Some(Manager)
    case OwnerValidator(n) => if n >= 1 then Some(Validator) else None
    case OwnerOther(_) => None
  }

  datatype Skill = Skill(id: SkillId, version: string, hash: string, roles: set<Role>, chars: nat)

  datatype Specialist = Specialist(id: string, roles: set<Role>)

  /** What a participant is asked to do; `text` stands for everything the classification reads. */
  datatype Input = Input(highRisk: bool, security: bool, hint: Option<string>, text: string)

  datatype Ref = Ref(id: SkillId, version: string, hash: string)

  datatype Assignment = Assignment(owner: Owner, role: Role, specialist: string, skills: seq<Ref>)

  datatype Portfolio = Portfolio(
    taskId: string, portfolioId: string, policy: string, maxUnique: int, uniqueIds: seq<SkillId>, charsAvoided: int,
    assignments: seq<Assignment>)

  /** Configuration, catalogue, and the uninterpreted parts: how skills are ranked, which are relevant, which
      specialist a text calls for, and how a portfolio is hashed into its identity. */
  datatype Harness = Harness(
    catalog: map<SkillId, Skill>, specialists: seq<Specialist>, policy: string,
    maxSkillsPerCall: nat, maxPerAgent: nat, maxUniquePerTask: nat, validatorsLowRisk: nat, validatorsHighRisk: nat,
    order: (Role, Input) -> seq<SkillId>, relevant: (Role, Input, SkillId) -> bool,
    guess: (Role, Input) -> Option<string>, fits: (string, Input) -> bool,
    identity: Portfolio -> string, isIdentity: string -> bool, isTaskId: string -> bool,
    before: (Candidate, Candidate) -> bool, idBefore: (SkillId, SkillId) -> bool)

  ghost predicate ConfigOk(h: Harness) {
    h.maxSkillsPerCall <= 10 && 1 <= h.maxPerAgent <= 4 && 1 <= h.maxUniquePerTask <= 10 &&
    h.maxPerAgent <= h.maxUniquePerTask &&
    1 <= h.validatorsLowRisk <= 5 && 1 <= h.validatorsHighRisk <= 7
  }

  /** The table of specialists names each once, and hashes look like identities. */
  ghost predicate CatalogOk(h: Harness) {
    (forall i, j :: 0 <= i < j < |h.specialists| ==> h.specialists[i].id != h.specialists[j].id) &&
    forall p :: h.isIdentity(h.identity(p))
  }

  datatype Failure =
    | TaskInvalid | TooManyParticipants | LimitInvalid | NoSpecialist
    | IdentityInvalid | PolicyNotRunnable | DuplicateTask | LimitExceeded
    | TelemetryInvalid | AssignmentInvalid | IndexInvalid | StateMissing

  // ---------------------------------------------------------------- choosing

  predicate Eligible(skill: Skill, role: Role) { skill.roles == {} || role in skill.roles }

  function Chosen(h: Harness, role: Role, input: Input, ranked: seq<SkillId>): seq<SkillId> {
    if ranked == [] then []
    else
      (if ranked[0] in h.catalog && Eligible(h.catalog[ranked[0]], role) && h.relevant(role, input, ranked[0])
       then [ranked[0]] else [])
      + Chosen(h, role, input, ranked[1..])
  }

  function Select(h: Harness, role: Role, input: Input, maxSkills: nat): seq<SkillId> {
    var chosen := Chosen(h, role, input, h.order(role, input));
    if |chosen| <= maxSkills then chosen else chosen[..maxSkills]
  }

  /** The first specialist for this role that is named, or that fits the department if none is named. */
  function FindSpecialist(
      h: Harness, role: Role, input: Input, name: Option<string>, anyDepartment: bool, i: nat): (r: Option<string>)
    requires i <= |h.specialists|
    ensures r.Some? ==>
              exists k :: 0 <= k < |h.specialists| && h.specialists[k].id == r.value && role in h.specialists[k].roles
    decreases |h.specialists| - i
  {
    if i == |h.specialists| then None
    else
      var s := h.specialists[i];
      if role in s.roles && (if name.Some? then name == Some(s.id) else anyDepartment || h.fits(s.id, input))
      then Some(s.id)
      else FindSpecialist(h, role, input, name, anyDepartment, i + 1)
  }

  /** Hint, classification, department, role: the first that leads to a specialist for the role. */
  function Resolve(h: Harness, role: Role, input: Input): (r: Option<string>)
    ensures r.Some? ==>
              exists k :: 0 <= k < |h.specialists| && h.specialists[k].id == r.value && role in h.specialists[k].roles
  {
    var hinted := if input.hint.Some? then FindSpecialist(h, role, input, input.hint, false, 0) else None;
    var guess := h.guess(role, input);
    var guessed := if guess.Some? then FindSpecialist(h, role, input, guess, false, 0) else None;
    var placed := FindSpecialist(h, role, input, None, false, 0);
    if hinted.Some? then hinted
    else if guessed.Some? then guessed
    else if placed.Some? then placed
    else FindSpecialist(h, role, input, None, true, 0)
  }

  // ---------------------------------------------------------------- participants

  datatype Participant = Participant(owner: Owner, role: Role, input: Input)

  const SECURITY_HINTS := ["security-remediation-verifier", "evidence-auditor", "failure-mode-critic"]
  const VALIDATOR_HINTS := ["evidence-auditor", "requirements-auditor", "failure-mode-critic"]

  function ValidatorCount(h: Harness, input: Input): nat {
    if input.highRisk then h.validatorsHighRisk else h.validatorsLowRisk
  }

  function ValidatorAt(input: Input, index: nat): Participant {
    Participant(OwnerValidator(index + 1), Validator,
                input.(hint := Some((if input.security then SECURITY_HINTS else VALIDATOR_HINTS)[index % 3])))
  }

  /** Worker, manager, and one participant for every validator that the risk class asks for. */
  method SkillPortfolioParticipants(h: Harness, input: Input) returns (out: seq<Participant>)
    ensures out == Participants(h, input)
  {
    hide WorkerOf, ManagerOf, ValidatorAt;
    out := [WorkerOf(input), ManagerOf(input)];
    for index := 0 to ValidatorCount(h, input)
      invariant out ==
                [WorkerOf(input), ManagerOf(input)] + seq(index, i requires 0 <= i < index => ValidatorAt(input, i))
    {
      out := out + [ValidatorAt(input, index)];
    }
  }

  function WorkerOf(input: Input): Participant {
    Participant(OwnerWorker, Worker,
                if input.security then input.(hint := Some("application-security-red-team")) else input)
  }

  function ManagerOf(input: Input): Participant {
    Participant(OwnerManager, Manager,
                input.(hint := Some(if input.security then "security-remediation-verifier" else "accountable-manager")))
  }

  function Participants(h: Harness, input: Input): seq<Participant> {
    [WorkerOf(input), ManagerOf(input)] +
    seq(ValidatorCount(h, input), i requires 0 <= i < ValidatorCount(h, input) => ValidatorAt(input, i))
  }

  function PerAgent(h: Harness): nat {
    if h.maxSkillsPerCall < h.maxPerAgent then h.maxSkillsPerCall else h.maxPerAgent
  }

  function LaneOf(h: Harness, p: Participant): Lane {
    Lane(p.role, PerAgent(h), Select(h, p.role, p.input, PerAgent(h)))
  }

  function Lanes(h: Harness, ps: seq<Participant>): seq<Lane> {
    seq(|ps|, i requires 0 <= i < |ps| => LaneOf(h, ps[i]))
  }

  // ---------------------------------------------------------------- the stored portfolio

  function RefOf(h: Harness, id: SkillId): Ref {
    if id in h.catalog then Ref(id, h.catalog[id].version, h.catalog[id].hash) else Ref(id, "", "")
  }

  function Refs(h: Harness, ids: seq<SkillId>): (refs: seq<Ref>)
    ensures |refs| == |ids|
  {
    seq(|ids|, i requires 0 <= i < |ids| => RefOf(h, ids[i]))
  }

  function Chars(h: Harness, ids: seq<SkillId>): nat {
    if ids == [] then 0 else (if ids[0] in h.catalog then h.catalog[ids[0]].chars else 0) + Chars(h, ids[1..])
  }

  function TotalChars(h: Harness, lists: seq<seq<SkillId>>): nat {
    if lists == [] then 0 else Chars(h, lists[0]) + TotalChars(h, lists[1..])
  }

  /** What the identity is computed from: everything but itself, the index and the telemetry. */
  function Identity(h: Harness, p: Portfolio): string {
    h.identity(p.(portfolioId := "", uniqueIds := [], charsAvoided := 0))
  }

  predicate HaveSpecialists(h: Harness, ps: seq<Participant>) {
    forall i :: 0 <= i < |ps| ==> Resolve(h, ps[i].role, ps[i].input).Some?
  }

  function AssignmentsOf(h: Harness, ps: seq<Participant>, owned: seq<seq<SkillId>>): (out: seq<Assignment>)
    requires |ps| == |owned| && HaveSpecialists(h, ps)
    ensures |out| == |ps|
  {
    seq(|ps|, i requires 0 <= i < |ps| =>
          Assignment(ps[i].owner, ps[i].role, Resolve(h, ps[i].role, ps[i].input).value, Refs(h, owned[i])))
  }

  /** Planning the portfolio of a task and storing references to the skills. */
  function Build(h: Harness, taskId: string, input: Input): Result<Portfolio, Failure> {
    var ps := Participants(h, input);
    if !h.isTaskId(taskId) then Err(TaskInvalid)
    else if h.maxUniquePerTask > 10 || PerAgent(h) > 4 then Err(LimitInvalid)
    else if |ps| > 10 then Err(TooManyParticipants)
    else if !HaveSpecialists(h, ps) then Err(NoSpecialist)
    else
      var lanes := Lanes(h, ps);
      var shares := Plan(lanes, h.maxUniquePerTask, h.before);
      if |shares.owned| != |ps| then Err(NoSpecialist)
      else
        var chosen := seq(|lanes|, i requires 0 <= i < |lanes| => lanes[i].selection);
        var avoided := TotalChars(h, chosen) - TotalChars(h, shares.owned);
        var p := Portfolio(taskId, "", h.policy, h.maxUniquePerTask, Sort(h.idBefore, shares.used),
                           if avoided < 0 then 0 else avoided,
                           AssignmentsOf(h, ps, shares.owned));
        Ok(p.(portfolioId := Identity(h, p)))
  }

  // ---------------------------------------------------------------- restoring

  /** The last specialist of this name, which is the one a lookup finds, has the role. */
  predicate SpecialistOk(h: Harness, id: string, role: Role) {
    exists k :: 0 <= k < |h.specialists| && IsLastNamed(h.specialists, k, id) && role in h.specialists[k].roles
  }

  predicate IsLastNamed(specialists: seq<Specialist>, k: nat, id: string)
    requires k < |specialists|
  {
    specialists[k].id == id && forall j :: k < j < |specialists| ==> specialists[j].id != id
  }

  predicate RefOk(h: Harness, role: Role, ref: Ref) {
    ref.id in h.catalog && h.catalog[ref.id].version == ref.version && h.catalog[ref.id].hash == ref.hash &&
    Eligible(h.catalog[ref.id], role)
  }

  predicate AssignmentOk(h: Harness, a: Assignment) {
    RoleOf(a.owner) == Some(a.role) && SpecialistOk(h, a.specialist, a.role) && |a.skills| <= h.maxPerAgent &&
    forall i :: 0 <= i < |a.skills| ==> RefOk(h, a.role, a.skills[i])
  }

  function Ids(refs: seq<Ref>): (ids: seq<SkillId>)
    ensures |ids| == |refs|
  {
    seq(|refs|, i requires 0 <= i < |refs| => refs[i].id)
  }

  /** All skills of the first n assignments, in order. */
  function AllIds(assignments: seq<Assignment>, n: nat): seq<SkillId>
    requires n <= |assignments|
  {
    if n == 0 then [] else AllIds(assignments, n - 1) + Ids(assignments[n - 1].skills)
  }

  ghost predicate AssignmentsOk(h: Harness, assignments: seq<Assignment>) {
    (forall i :: 0 <= i < |assignments| ==> AssignmentOk(h, assignments[i])) &&
    (forall i, j :: 0 <= i < j < |assignments| ==> assignments[i].owner != assignments[j].owner) &&
    Distinct(AllIds(assignments, |assignments|))
  }

  ghost predicate Acceptable(h: Harness, p: Portfolio) {
    h.isIdentity(p.portfolioId) && p.policy == h.policy && ContentsOk(h, p)
  }

  /** Both caps, a count that makes sense, sound assignments, an index that passes, and an identity that fits. */
  ghost predicate ContentsOk(h: Harness, p: Portfolio) {
    0 <= p.maxUnique <= h.maxUniquePerTask && |p.uniqueIds| <= p.maxUnique &&
    p.charsAvoided >= 0 && AssignmentsOk(h, p.assignments) &&
    SameIndex(AllIds(p.assignments, |p.assignments|), p.uniqueIds) && Identity(h, p) == p.portfolioId
  }

  /** The references of one assignment: known, unchanged, eligible, and none seen before. */
  method CheckRefs(h: Harness, role: Role, refs: seq<Ref>, seen: seq<SkillId>) returns (ok: bool, all: seq<SkillId>)
    requires Distinct(seen)
    ensures ok <==> (forall i :: 0 <= i < |refs| ==> RefOk(h, role, refs[i])) && Distinct(seen + Ids(refs))
    ensures ok ==> all == seen + Ids(refs)
  {
    all := seen;
    for i := 0 to |refs|
      invariant all == seen + Ids(refs[..i]) && Distinct(all)
      invariant forall j :: 0 <= j < i ==> RefOk(h, role, refs[j])
    {
      if || refs[i].id !in h.catalog
         || h.catalog[refs[i].id].version != refs[i].version
         || h.catalog[refs[i].id].hash != refs[i].hash {
        return false, all;
      }
      if refs[i].id in all {
        var k :| 0 <= k < |all| && all[k] == refs[i].id;
        assert (seen + Ids(refs))[k] == all[k] && (seen + Ids(refs))[|seen| + i] == refs[i].id;
        return false, all;
      }
      if !Eligible(h.catalog[refs[i].id], role) { return false, all; }
      all := all + [refs[i].id];
      assert Ids(refs[..i + 1]) == Ids(refs[..i]) + [refs[i].id];
    }
    assert refs[..|refs|] == refs;
    return true, all;
  }

  method CheckAssignments(h: Harness, assignments: seq<Assignment>) returns (ok: bool, seen: seq<SkillId>)
    ensures ok <==> AssignmentsOk(h, assignments)
    ensures ok ==> seen == AllIds(assignments, |assignments|)
  {
    NoneRepeat();
    hide Distinct, RefOk, Ids, SpecialistOk, RoleOf;
    seen := [];
    var owners := {};
    for i := 0 to |assignments|
      invariant seen == AllIds(assignments, i) && Distinct(seen)
      invariant forall o :: o in owners <==> exists j :: 0 <= j < i && assignments[j].owner == o
      invariant forall j :: 0 <= j < i ==> AssignmentOk(h, assignments[j])
      invariant forall j, k :: 0 <= j < k < i ==> assignments[j].owner != assignments[k].owner
    {
      var a := assignments[i];
      if a.owner in owners { return false, seen; }
      owners := owners + {a.owner};
      if RoleOf(a.owner) != Some(a.role) { return false, seen; }
      if !SpecialistOk(h, a.specialist, a.role) { return false, seen; }
      if |a.skills| > h.maxPerAgent { return false, seen; }
      PrefixDistinct(assignments, i + 1);
      ok, seen := CheckRefs(h, a.role, a.skills, seen);
      if !ok { return false, seen; }
    }
    return true, seen;
  }

  lemma NoneRepeat()
    ensures Distinct<SkillId>([])
  {}

  lemma {:induction false} PrefixDistinct(assignments: seq<Assignment>, n: nat)
    requires n <= |assignments|
    ensures AllIds(assignments, n) <= AllIds(assignments, |assignments|)
    ensures Distinct(AllIds(assignments, |assignments|)) ==> Distinct(AllIds(assignments, n))
    decreases |assignments| - n
  {
    if n < |assignments| {
      PrefixDistinct(assignments, n + 1);
    }
  }

  method CheckContents(h: Harness, p: Portfolio) returns (checked: Result<(), Failure>)
    ensures checked.Ok? <==> ContentsOk(h, p)
    ensures checked.Err? ==>
              checked.error ==
                if !(0 <= p.maxUnique <= h.maxUniquePerTask && |p.uniqueIds| <= p.maxUnique) then LimitExceeded
                else if p.charsAvoided < 0 then TelemetryInvalid
                else if !AssignmentsOk(h, p.assignments) then AssignmentInvalid
                else if !SameIndex(AllIds(p.assignments, |p.assignments|), p.uniqueIds) then IndexInvalid
                else IdentityInvalid
  {
    hide AssignmentsOk, AllIds, Identity, SameIndex;
    if p.maxUnique < 0 || p.maxUnique > h.maxUniquePerTask || |p.uniqueIds| > p.maxUnique { return Err(LimitExceeded); }
    if p.charsAvoided < 0 { return Err(TelemetryInvalid); }
    var ok, seen := CheckAssignments(h, p.assignments);
    if !ok { return Err(AssignmentInvalid); }
    if !SameIndex(seen, p.uniqueIds) { return Err(IndexInvalid); }
    if Identity(h, p) != p.portfolioId { return Err(IdentityInvalid); }
    return Ok(());
  }

  /** The part of a stored run state that concerns portfolios. */
  datatype HarnessState = HarnessState(policy: Option<string>, portfolios: seq<Portfolio>)

  /** The first n portfolios pass all checks. */
  ghost predicate Pass(h: Harness, portfolios: seq<Portfolio>, n: nat)
    requires n <= |portfolios|
  {
    (forall i :: 0 <= i < n ==> Acceptable(h, portfolios[i])) &&
    forall i, j :: 0 <= i < j < n ==> portfolios[i].taskId != portfolios[j].taskId
  }

  /** n is as far as the portfolios pass. */
  ghost predicate PassUpTo(h: Harness, portfolios: seq<Portfolio>, n: nat) {
    n <= |portfolios| && Pass(h, portfolios, n) && (n < |portfolios| ==> !Pass(h, portfolios, n + 1))
  }

  function Table(portfolios: seq<Portfolio>, n: nat): map<string, Portfolio>
    requires n <= |portfolios|
  {
    if n == 0 then map[] else Table(portfolios, n - 1)[portfolios[n - 1].taskId := portfolios[n - 1]]
  }

  function Avoided(portfolios: seq<Portfolio>, n: nat): int
    requires n <= |portfolios|
  {
    if n == 0 then 0 else Avoided(portfolios, n - 1) + portfolios[n - 1].charsAvoided
  }

  class CapabilityHarness {
    const h: Harness
    var taskPortfolios: map<string, Portfolio>
    var charsAvoided: int

    constructor (h: Harness)
      ensures this.h == h && taskPortfolios == map[] && charsAvoided == 0
    {
      this.h := h;
      taskPortfolios, charsAvoided := map[], 0;
    }

    ghost predicate Holds(portfolios: seq<Portfolio>, n: nat)
      requires n <= |portfolios|
      reads this
    {
      taskPortfolios == Table(portfolios, n) && charsAvoided == Avoided(portfolios, n)
    }

    /** Takes the stored portfolios over, one after the other, and stops at the first that fails a check. What was
        held before is gone in any case; what was taken over before the failure stays. */
    method Restore(state: Option<HarnessState>) returns (result: Result<(), Failure>)
      modifies this
      ensures state.None? ==> result == Err(StateMissing) && Holds([], 0)
      ensures state.Some? && state.value.policy != Some(h.policy) ==> result == Err(PolicyNotRunnable) && Holds([], 0)
      ensures state.Some? && state.value.policy == Some(h.policy) ==>
                (result.Ok? <==> Pass(h, state.value.portfolios, |state.value.portfolios|)) &&
                exists n: nat :: PassUpTo(h, state.value.portfolios, n) && Holds(state.value.portfolios, n)
    {
      hide ContentsOk, Identity;
      taskPortfolios, charsAvoided := map[], 0;
      if state.None? { return Err(StateMissing); }
      if state.value.policy != Some(h.policy) { return Err(PolicyNotRunnable); }
      var portfolios := state.value.portfolios;
      for n := 0 to |portfolios|
        invariant Holds(portfolios, n) && Pass(h, portfolios, n)
        invariant forall t :: t in taskPortfolios <==> exists i :: 0 <= i < n && portfolios[i].taskId == t
      {
        var checked := CheckPortfolio(portfolios[n]);
        assert Pass(h, portfolios, n + 1) <==> checked.Ok? by {
          if portfolios[n].taskId in taskPortfolios {
            var i :| 0 <= i < n && portfolios[i].taskId == portfolios[n].taskId;
          }
        }
        if checked.Err? {
          assert PassUpTo(h, portfolios, n);
          return checked;
        }
        taskPortfolios := taskPortfolios[portfolios[n].taskId := portfolios[n]];
        charsAvoided := charsAvoided + portfolios[n].charsAvoided;
      }
      assert PassUpTo(h, portfolios, |portfolios|);
      return Ok(());
    }

    /** The checks of one portfolio, in order. */
    method CheckPortfolio(p: Portfolio) returns (checked: Result<(), Failure>)
      ensures checked.Ok? <==> Acceptable(h, p) && p.taskId !in taskPortfolios
      ensures !h.isIdentity(p.portfolioId) ==> checked == Err(IdentityInvalid)
      ensures h.isIdentity(p.portfolioId) && p.policy != h.policy ==> checked == Err(PolicyNotRunnable)
      ensures h.isIdentity(p.portfolioId) && p.policy == h.policy && p.taskId in taskPortfolios ==>
                checked == Err(DuplicateTask)
    {
      hide ContentsOk;
      if !h.isIdentity(p.portfolioId) { return Err(IdentityInvalid); }
      if p.policy != h.policy { return Err(PolicyNotRunnable); }
      if p.taskId in taskPortfolios { return Err(DuplicateTask); }
      checked := CheckContents(h, p);
    }
  }
}
