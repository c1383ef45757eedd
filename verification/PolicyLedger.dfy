/** The ledger of learning policies: promotion, rollback, trimming, and the rule under which a stored ledger
    is accepted. What a proposal is based on is arbitrary. */
module PolicyLedger {
  import opened Wrappers

  type VersionId = string

  datatype Status = Active | Superseded | Rejected | RolledBack

  /** What a version rests on: numbers of source runs and of skills, and whether its texts, digest and
      numbers pass the remaining checks of its own validation. */
  datatype Evidence = Evidence(runs: nat, skills: nat, proper: bool)

  datatype Version = Version(id: VersionId, createdAt: int, status: Status, evidence: Evidence)

  datatype Outcome = Collecting | Stable | Promoted | Refused | Undone

  /** `active` is None for the built-in baseline. */
  datatype Ledger = Ledger(active: Option<VersionId>, rollbacks: nat, versions: seq<Version>, outcome: Outcome)

  datatype Proposal = NoCandidate | Candidate(id: VersionId, evidence: Evidence, passed: bool)

  const MAX_SOURCE_RUNS: nat := 2_000
  const MAX_SKILLS: nat := 512
  const MAX_VERSIONS: nat := 24
  const MAX_ROLLBACKS: nat := 1_000_000

  function Empty(): Ledger { Ledger(None, 0, [], Collecting) }

  // ---------------------------------------------------------------- reading

  /** The validation of a version when it is read; nothing bounds runs or skills when it is written. */
  predicate Sound(e: Evidence) { e.runs <= MAX_SOURCE_RUNS && e.skills <= MAX_SKILLS && e.proper }

  predicate DistinctIds(versions: seq<Version>) {
    forall i, j :: 0 <= i < j < |versions| ==> versions[i].id != versions[j].id
  }

  /** At most one version is active, and then it is the one the ledger names; none is for the baseline. */
  predicate OneActive(l: Ledger) {
    match l.active
    case None => forall i :: 0 <= i < |l.versions| ==> l.versions[i].status != Active
    case Some(id) => exists p :: 0 <= p < |l.versions| && IsActiveAt(l.versions, p, id)
  }

  predicate IsActiveAt(versions: seq<Version>, p: nat, id: VersionId)
    requires p < |versions|
  {
    versions[p].id == id && forall i :: 0 <= i < |versions| ==> (versions[i].status == Active <==> i == p)
  }

  predicate Accepted(l: Ledger) {
    l.rollbacks <= MAX_ROLLBACKS && |l.versions| <= MAX_VERSIONS && DistinctIds(l.versions) && OneActive(l) &&
    forall i :: 0 <= i < |l.versions| ==> Sound(l.versions[i].evidence)
  }

  /** What reading the stored ledger gives: a ledger that is not accepted counts as none at all. */
  function Read(l: Ledger): Ledger { if Accepted(l) then l else Empty() }

  // ---------------------------------------------------------------- sorting

  /** The order of a sort: newest first with the named version ahead of all, or oldest first. */
  datatype Order = NewestFirst(ahead: Option<VersionId>) | OldestFirst

  predicate Precedes(order: Order, a: Version, b: Version) {
    match order
    case OldestFirst => a.createdAt < b.createdAt
    case NewestFirst(ahead) =>
      if ahead == Some(a.id) then ahead != Some(b.id)
      else ahead != Some(b.id) && a.createdAt > b.createdAt
  }

  function Insert(order: Order, v: Version, sorted: seq<Version>): seq<Version> {
    if sorted == [] then [v]
    else if Precedes(order, sorted[0], v) then [sorted[0]] + Insert(order, v, sorted[1..])
    else [v] + sorted
  }

  /** A stable sort. */
  function Sort(order: Order, versions: seq<Version>): seq<Version> {
    if versions == [] then [] else Insert(order, versions[0], Sort(order, versions[1..]))
  }

  function Trim(versions: seq<Version>, active: Option<VersionId>): seq<Version> {
    if |versions| <= MAX_VERSIONS then versions
    else
      var ranked := Sort(NewestFirst(active), versions);
      Sort(OldestFirst, if |ranked| <= MAX_VERSIONS then ranked else ranked[..MAX_VERSIONS])
  }

  // ---------------------------------------------------------------- operations

  function Find(versions: seq<Version>, id: VersionId): (p: nat)
    ensures p <= |versions|
    ensures p < |versions| ==> versions[p].id == id
    ensures forall i :: 0 <= i < p ==> versions[i].id != id
  {
    if versions == [] || versions[0].id == id then 0 else 1 + Find(versions[1..], id)
  }

  function Retire(versions: seq<Version>): (out: seq<Version>)
    ensures |out| == |versions|
  {
    seq(|versions|, i requires 0 <= i < |versions| =>
      if versions[i].status == Active then versions[i].(status := Superseded) else versions[i])
  }

  function Evaluate(stored: Ledger, proposal: Proposal, at: int): Ledger {
    var l := Read(stored);
    match proposal
    case NoCandidate => l.(outcome := Collecting)
    case Candidate(id, evidence, passed) =>
      var existing := Find(l.versions, id);
      if existing < |l.versions| then
        l.(outcome := if l.versions[existing].status == Active then Stable else Refused,
           versions := Trim(l.versions, l.active))
      else if passed then
        l.(outcome := Promoted, active := Some(id),
           versions := Trim(Retire(l.versions) + [Version(id, at, Active, evidence)], Some(id)))
      else
        l.(outcome := Refused, versions := Trim(l.versions + [Version(id, at, Rejected, evidence)], l.active))
  }

  function Superseding(versions: seq<Version>): seq<Version> {
    if versions == [] then []
    else (if versions[0].status == Superseded then [versions[0]] else []) + Superseding(versions[1..])
  }

  /** The version with this id gets a new status. */
  function Mark(versions: seq<Version>, id: VersionId, status: Status): (out: seq<Version>)
    ensures |out| == |versions|
  {
    var p := Find(versions, id);
    if p < |versions| then versions[p := versions[p].(status := status)] else versions
  }

  function Rollback(stored: Ledger): Ledger {
    var l := Read(stored);
    if l.active.None? then stored
    else
      var marked := Mark(l.versions, l.active.value, RolledBack);
      var candidates := Sort(NewestFirst(None), Superseding(marked));
      if candidates == [] then Ledger(None, l.rollbacks + 1, marked, Undone)
      else Ledger(Some(candidates[0].id), l.rollbacks + 1, Mark(marked, candidates[0].id, Active), Undone)
  }

  datatype Step = StepEvaluate(proposal: Proposal, at: int) | StepRollback

  function Next(l: Ledger, step: Step): Ledger {
    match step
    case StepEvaluate(proposal, at) => Evaluate(l, proposal, at)
    case StepRollback => Rollback(l)
  }
}
