/** Every operation on the policy ledger, as an operation on its undo stack. */
module PolicyLedgerTheorems {
  import opened PolicyLedger
  import opened PolicyLedgerProofs
  import opened Wrappers

  ghost predicate Marked(versions: seq<Version>, active: Option<VersionId>) {
    forall i :: 0 <= i < |versions| ==> (versions[i].status == Active <==> active == Some(versions[i].id))
  }

  ghost predicate VersionsOk(versions: seq<Version>, active: Option<VersionId>) {
    Ascending(versions) && DistinctIds(versions) && Marked(versions, active) && Top(Stack(versions)) == active
  }

  /** A ledger as the store leaves it: the active version is the top of the stack. */
  ghost predicate LedgerOk(l: Ledger) { |l.versions| <= MAX_VERSIONS && VersionsOk(l.versions, l.active) }

  predicate Stored(l: Ledger) {
    l.rollbacks <= MAX_ROLLBACKS && forall i :: 0 <= i < |l.versions| ==> Sound(l.versions[i].evidence)
  }

  lemma TopIsThere(versions: seq<Version>, active: Option<VersionId>) returns (p: nat)
    requires VersionsOk(versions, active) && active.Some?
    ensures p < |versions| && versions[p].id == active.value && versions[p].status == Active
  {
    p := StackIndex(versions, |Stack(versions)| - 1);
  }

  /** What was written is read back, exactly as long as every version is sound and the counter has not
      passed its limit; after that the ledger counts as empty. */
  lemma ReadsBack(l: Ledger)
    requires LedgerOk(l)
    ensures Read(l) == (if Stored(l) then l else Empty()) && LedgerOk(Read(l))
  {
    if l.active.Some? {
      var p := TopIsThere(l.versions, l.active);
      assert IsActiveAt(l.versions, p, l.active.value);
    }
  }

  // ---------------------------------------------------------------- trimming

  lemma StackHead(versions: seq<Version>)
    requires versions != []
    ensures Stack(versions) == (if OnStack(versions[0]) then [versions[0].id] else []) + Stack(versions[1..])
  {}

  lemma StackUpdate(versions: seq<Version>, p: nat, v: Version)
    requires p < |versions|
    ensures Stack(versions[p := v]) ==
            Stack(versions[..p]) + (if OnStack(v) then [v.id] else []) + Stack(versions[p + 1..])
  {
    assert versions[p := v] == versions[..p] + ([v] + versions[p + 1..]);
    StackConcat(versions[..p], [v] + versions[p + 1..]);
    StackHead([v] + versions[p + 1..]);
    assert ([v] + versions[p + 1..])[1..] == versions[p + 1..];
  }

  lemma DropOldestOrder(versions: seq<Version>, active: Option<VersionId>)
    requires Ascending(versions) && DistinctIds(versions) && Marked(versions, active) && |versions| > 1
    ensures var kept := DropOldest(versions, active); Ascending(kept) && DistinctIds(kept) && Marked(kept, active)
    ensures active == Some(versions[0].id) ==> OnStack(versions[0])
  {}

  lemma DropOldestKeeps(versions: seq<Version>, active: Option<VersionId>)
    requires VersionsOk(versions, active) && |versions| > 1
    ensures VersionsOk(DropOldest(versions, active), active)
    ensures Stack(DropOldest(versions, active)) ==
              if OnStack(versions[0]) && active != Some(versions[0].id) then Stack(versions)[1..] else Stack(versions)
  {
    hide Stack, Ascending, DistinctIds, Marked;
    DropOldestOrder(versions, active);
    if active == Some(versions[0].id) {
      OnlyFirst(versions);
    } else {
      StackHead(versions);
    }
  }

  /** If the first version is the top, the second one is not on the stack. */
  lemma OnlyFirst(versions: seq<Version>)
    requires DistinctIds(versions) && |versions| > 1 && OnStack(versions[0]) &&
             Top(Stack(versions)) == Some(versions[0].id)
    ensures Stack([versions[0]] + versions[2..]) == Stack(versions)
  {
    hide Stack, DistinctIds;
    TopIsLast(versions, 0);
    assert versions[0 + 1..] == versions[1..] && versions[1..][1..] == versions[2..];
    StackHead(versions);
    StackHead(versions[1..]);
    StackHead([versions[0]] + versions[2..]);
    assert ([versions[0]] + versions[2..])[1..] == versions[2..];
  }

  lemma TrimKeeps(versions: seq<Version>, active: Option<VersionId>)
    requires VersionsOk(versions, active) && |versions| <= MAX_VERSIONS + 1
    ensures VersionsOk(Trim(versions, active), active) && |Trim(versions, active)| <= MAX_VERSIONS
    ensures Stack(Trim(versions, active)) ==
              if |versions| > MAX_VERSIONS && OnStack(versions[0]) && active != Some(versions[0].id)
              then Stack(versions)[1..] else Stack(versions)
    ensures forall v :: v in Trim(versions, active) ==> v in versions
  {
    hide VersionsOk, Sort, Stack;
    if |versions| > MAX_VERSIONS {
      assert Ascending(versions) && DistinctIds(versions) by {
        Parts(versions, active);
      }
      TrimDropsOldest(versions, active);
      DropOldestKeeps(versions, active);
    }
  }

  lemma Parts(versions: seq<Version>, active: Option<VersionId>)
    requires VersionsOk(versions, active)
    ensures Ascending(versions) && DistinctIds(versions)
  {}

  // ---------------------------------------------------------------- pushing

  ghost predicate Newer(versions: seq<Version>, at: int) {
    forall i :: 0 <= i < |versions| ==> versions[i].createdAt < at
  }

  ghost predicate Fresh(versions: seq<Version>, id: VersionId) {
    forall i :: 0 <= i < |versions| ==> versions[i].id != id
  }

  lemma StackOne(versions: seq<Version>, v: Version)
    ensures Stack(versions + [v]) == Stack(versions) + if OnStack(v) then [v.id] else []
  {
    StackConcat(versions, [v]);
    assert [v][1..] == [];
  }

  lemma PushKeeps(versions: seq<Version>, active: Option<VersionId>, v: Version)
    requires VersionsOk(versions, active) && Newer(versions, v.createdAt) && Fresh(versions, v.id) && v.status == Active
    ensures VersionsOk(Retire(versions) + [v], Some(v.id))
    ensures Stack(Retire(versions) + [v]) == Stack(versions) + [v.id]
  {
    hide Stack;
    SameStack(versions, Retire(versions));
    StackOne(Retire(versions), v);
  }

  lemma RecordKeeps(versions: seq<Version>, active: Option<VersionId>, v: Version)
    requires VersionsOk(versions, active) && Newer(versions, v.createdAt) && Fresh(versions, v.id) &&
             v.status == Rejected
    ensures VersionsOk(versions + [v], active)
    ensures Stack(versions + [v]) == Stack(versions)
  {
    hide Stack;
    StackOne(versions, v);
    assert active.Some? ==> v.id != active.value by {
      if active.Some? {
        var p := TopIsThere(versions, active);
      }
    }
  }

  // ---------------------------------------------------------------- popping

  /** Without an active version the superseded ones are the stack, in its order. */
  lemma {:induction false} SupersedingIsStack(versions: seq<Version>)
    requires Ascending(versions) && DistinctIds(versions)
    requires forall i :: 0 <= i < |versions| ==> versions[i].status != Active
    ensures var s := Superseding(versions);
            |s| == |Stack(versions)| && Ascending(s) && DistinctIds(s) &&
            (forall i :: 0 <= i < |s| ==> s[i].id == Stack(versions)[i]) && (forall v :: v in s ==> v in versions)
    decreases |versions|
  {
    if versions != [] {
      SupersedingIsStack(versions[1..]);
      assert versions == [versions[0]] + versions[1..];
      var s := Superseding(versions[1..]);
      forall i | 0 <= i < |s|
        ensures versions[0].createdAt < s[i].createdAt && versions[0].id != s[i].id
      {
        assert s[i] in versions[1..];
      }
      OlderInFront(versions[0], s);
      hide Ascending, DistinctIds;
      assert Superseding(versions) == if versions[0].status == Superseded then [versions[0]] + s else s;
    }
  }

  lemma OlderInFront(v: Version, versions: seq<Version>)
    requires Ascending(versions) && DistinctIds(versions)
    requires forall i :: 0 <= i < |versions| ==> v.createdAt < versions[i].createdAt && v.id != versions[i].id
    ensures Ascending([v] + versions) && DistinctIds([v] + versions)
  {}

  lemma MarkAt(versions: seq<Version>, p: nat, status: Status)
    requires DistinctIds(versions) && p < |versions|
    ensures Mark(versions, versions[p].id, status) == versions[p := versions[p].(status := status)]
  {}

  /** Taking the top off. */
  lemma TopGoes(versions: seq<Version>, active: Option<VersionId>)
    requires VersionsOk(versions, active) && active.Some?
    ensures var marked := Mark(versions, active.value, RolledBack);
            Ascending(marked) && DistinctIds(marked) && Stack(marked) == Stack(versions)[..|Stack(versions)| - 1] &&
            forall i :: 0 <= i < |marked| ==> marked[i].status != Active
  {
    hide Stack, Mark;
    var p := TopIsThere(versions, active);
    MarkAt(versions, p, RolledBack);
    TopIsLast(versions, p);
    StackUpdate(versions, p, versions[p].(status := RolledBack));
  }

  /** The superseded version that is picked is the new top. */
  lemma TopComesBack(versions: seq<Version>)
    requires Ascending(versions) && DistinctIds(versions)
    requires forall i :: 0 <= i < |versions| ==> versions[i].status != Active
    ensures var picked := Sort(NewestFirst(None), Superseding(versions));
            (picked == [] <==> Stack(versions) == []) &&
            (picked != [] ==> Top(Stack(versions)) == Some(picked[0].id) && BackOnTop(versions, picked[0].id))
  {
    hide Stack, Mark, VersionsOk, Superseding, Sort, Ascending, DistinctIds;
    SupersedingIsStack(versions);
    NewestIsLast(Superseding(versions));
    if Superseding(versions) != [] {
      Reinstates(versions, Superseding(versions)[|Superseding(versions)| - 1].id);
    }
  }

  ghost predicate BackOnTop(versions: seq<Version>, id: VersionId) {
    VersionsOk(Mark(versions, id, Active), Some(id)) && Stack(Mark(versions, id, Active)) == Stack(versions)
  }

  lemma NewestIsLast(versions: seq<Version>)
    requires Ascending(versions) && DistinctIds(versions)
    ensures var sorted := Sort(NewestFirst(None), versions);
            (sorted == [] <==> versions == []) && (versions != [] ==> sorted[0] == versions[|versions| - 1])
  {
    hide Sort, Reverse, Ahead, Others, Ascending, DistinctIds;
    SortNewestFirst(versions, None);
    NoneAhead(versions, None);
    assert [] + Reverse(versions) == Reverse(versions);
    if versions != [] {
      var last := versions[|versions| - 1];
      assert versions == versions[..|versions| - 1] + [last];
      ReverseSnoc(versions[..|versions| - 1], last);
    }
  }

  lemma Reinstates(versions: seq<Version>, id: VersionId)
    requires Ascending(versions) && DistinctIds(versions)
    requires forall i :: 0 <= i < |versions| ==> versions[i].status != Active
    requires Top(Stack(versions)) == Some(id)
    ensures BackOnTop(versions, id)
  {
    hide Stack, Mark, Ascending, DistinctIds, Marked;
    var p := StackIndex(versions, |Stack(versions)| - 1);
    MarkAt(versions, p, Active);
    ActivatedOrder(versions, p);
    SameStack(versions, versions[p := versions[p].(status := Active)]);
  }

  lemma ActivatedOrder(versions: seq<Version>, p: nat)
    requires Ascending(versions) && DistinctIds(versions) && p < |versions|
    requires forall i :: 0 <= i < |versions| ==> versions[i].status != Active
    ensures var activated := versions[p := versions[p].(status := Active)];
            Ascending(activated) && DistinctIds(activated) && Marked(activated, Some(versions[p].id))
  {}

  // ---------------------------------------------------------------- the operations on the stack

  predicate Records(l: Ledger, step: Step) {
    step.StepEvaluate? && step.proposal.Candidate? && Find(l.versions, step.proposal.id) == |l.versions|
  }

  predicate Promotes(l: Ledger, step: Step) { Records(l, step) && step.proposal.passed }

  /** The stack before anything is trimmed: pushed, popped, or as it was. */
  function Moved(l: Ledger, step: Step): seq<VersionId> { MovedFrom(Stack(l.versions), l, step) }

  function MovedFrom(stack: seq<VersionId>, l: Ledger, step: Step): seq<VersionId> {
    if step.StepRollback? then (if stack == [] then [] else stack[..|stack| - 1])
    else if Promotes(l, step) then stack + [step.proposal.id]
    else stack
  }

  /** A full ledger makes room at the bottom: for its oldest version, unless that is the active one or
      not on the stack anyway. */
  predicate LosesBottom(l: Ledger, step: Step) {
    Records(l, step) && |l.versions| == MAX_VERSIONS && OnStack(l.versions[0]) &&
    Top(Moved(l, step)) != Some(l.versions[0].id)
  }

  ghost predicate InTime(l: Ledger, step: Step) { step.StepEvaluate? ==> Newer(l.versions, step.at) }

  /** The ledger refines a bounded undo stack: promotion pushes, rollback pops to the version that was
      active before, a full ledger loses the bottom, and nothing else moves; the active version is the top. */
  lemma Refines(l: Ledger, step: Step)
    requires LedgerOk(l) && Stored(l) && InTime(l, step)
    ensures var after := Next(l, step);
            LedgerOk(after) && after.active == Top(Stack(after.versions)) &&
            Stack(after.versions) == (if LosesBottom(l, step) then Moved(l, step)[1..] else Moved(l, step))
  {
    hide VersionsOk, Trim, Retire, Mark, Stack, Accepted;
    ReadsBack(l);
    match step
    case StepRollback => RollbackRefines(l);
    case StepEvaluate(proposal, at) =>
      if Records(l, step) {
        RecordRefines(l, proposal.id, proposal.evidence, proposal.passed, at);
      } else if proposal.Candidate? {
        TrimKeeps(l.versions, l.active);
      }
      TopIsActive(Next(l, step));
  }

  lemma TopIsActive(l: Ledger)
    ensures LedgerOk(l) ==> l.active == Top(Stack(l.versions))
  {}

  lemma RecordRefines(l: Ledger, id: VersionId, evidence: Evidence, passed: bool, at: int)
    requires LedgerOk(l) && Newer(l.versions, at) && Fresh(l.versions, id)
    ensures var grown := if passed then Retire(l.versions) + [Version(id, at, Active, evidence)]
            else l.versions + [Version(id, at, Rejected, evidence)];
            var active := if passed then Some(id) else l.active;
            var stack := Stack(l.versions) + if passed then [id] else [];
            var trimmed := Trim(grown, active);
            VersionsOk(trimmed, active) && |trimmed| <= MAX_VERSIONS && Top(stack) == active &&
            Stack(trimmed) ==
            if |l.versions| == MAX_VERSIONS && OnStack(l.versions[0]) && active != Some(l.versions[0].id)
            then stack[1..] else stack
  {
    TopIsActive(l);
    if passed {
      PushKeeps(l.versions, l.active, Version(id, at, Active, evidence));
      hide VersionsOk, Trim, Stack;
      TrimKeeps(Retire(l.versions) + [Version(id, at, Active, evidence)], Some(id));
    } else {
      RecordKeeps(l.versions, l.active, Version(id, at, Rejected, evidence));
      hide VersionsOk, Trim, Stack;
      TrimKeeps(l.versions + [Version(id, at, Rejected, evidence)], l.active);
    }
  }

  lemma RollbackRefines(l: Ledger)
    requires LedgerOk(l) && Stored(l)
    ensures LedgerOk(Rollback(l)) && Rollback(l).active == Top(Stack(Rollback(l).versions))
    ensures var stack := Stack(l.versions);
            Stack(Rollback(l).versions) == if stack == [] then [] else stack[..|stack| - 1]
  {
    hide Mark, Sort, Superseding;
    ReadsBack(l);
    if l.active.Some? {
      TopGoes(l.versions, l.active);
      TopComesBack(Mark(l.versions, l.active.value, RolledBack));
    }
  }

  // ---------------------------------------------------------------- verdicts are final

  predicate IsFinal(status: Status) { status == Rejected || status == RolledBack }

  /** A version that was rejected or rolled back keeps that verdict for as long as the ledger keeps it. */
  lemma VerdictsAreFinal(l: Ledger, step: Step, i: nat, j: nat)
    requires LedgerOk(l) && Stored(l) && InTime(l, step)
    requires i < |l.versions| && IsFinal(l.versions[i].status)
    requires j < |Next(l, step).versions| && Next(l, step).versions[j].id == l.versions[i].id
    ensures Next(l, step).versions[j].status == l.versions[i].status
  {
    ReadsBack(l);
    match step
    case StepRollback => RollbackIsFinal(l, i, j);
    case StepEvaluate(proposal, at) =>
      if proposal.Candidate? {
        EvaluateIsFinal(l, step, i, j);
      } else {
        assert l.versions[j].id == l.versions[i].id;
      }
  }

  lemma RollbackIsFinal(l: Ledger, i: nat, j: nat)
    requires LedgerOk(l) && Stored(l) && i < |l.versions| && IsFinal(l.versions[i].status)
    requires j < |Rollback(l).versions| && Rollback(l).versions[j].id == l.versions[i].id
    ensures Rollback(l).versions[j].status == l.versions[i].status
  {
    hide Sort, Superseding, Stack, Mark, Accepted;
    ReadsBack(l);
    if l.active.Some? {
      var marked := Mark(l.versions, l.active.value, RolledBack);
      MarkKeepsOthers(l.versions, l.active.value, RolledBack);
      TopGoes(l.versions, l.active);
      TopComesBack(marked);
      var picked := Sort(NewestFirst(None), Superseding(marked));
      if picked != [] {
        var q := StackIndex(marked, |Stack(marked)| - 1);
        MarkKeepsOthers(marked, picked[0].id, Active);
      }
      SameIdSamePlace(l.versions, i, j);
    }
  }

  /** Marking changes no id, and no status but that of the version named. */
  lemma MarkKeepsOthers(versions: seq<Version>, id: VersionId, status: Status)
    ensures var marked := Mark(versions, id, status);
            forall i :: 0 <= i < |versions| ==>
              marked[i].id == versions[i].id && (versions[i].id != id ==> marked[i].status == versions[i].status)
  {}

  lemma SameIdSamePlace(versions: seq<Version>, i: nat, j: nat)
    requires DistinctIds(versions) && i < |versions| && j < |versions| && versions[i].id == versions[j].id
    ensures i == j
  {}

  lemma EvaluateIsFinal(l: Ledger, step: Step, i: nat, j: nat)
    requires LedgerOk(l) && Stored(l) && InTime(l, step) && step.StepEvaluate? && step.proposal.Candidate?
    requires i < |l.versions| && IsFinal(l.versions[i].status)
    requires j < |Next(l, step).versions| && Next(l, step).versions[j].id == l.versions[i].id
    ensures Next(l, step).versions[j].status == l.versions[i].status
  {
    hide Trim, Sort, Stack, Accepted;
    ReadsBack(l);
    var id := step.proposal.id;
    var v := Version(id, step.at, if step.proposal.passed then Active else Rejected, step.proposal.evidence);
    var grown := if !Records(l, step) then l.versions
                 else if step.proposal.passed then Retire(l.versions) + [v]
                 else l.versions + [v];
    if Records(l, step) {
      if step.proposal.passed {
        PushKeeps(l.versions, l.active, v);
      } else {
        RecordKeeps(l.versions, l.active, v);
      }
    }
    TrimKeeps(grown, Next(l, step).active);
    var w := Next(l, step).versions[j];
    assert w in grown;
    var k :| 0 <= k < |grown| && grown[k] == w;
    assert k < |l.versions| ==> k == i;
  }

  // ---------------------------------------------------------------- every run

  /** A run of operations whose evaluation times strictly increase. */
  ghost predicate Run(ledgers: seq<Ledger>, steps: seq<Step>) {
    |ledgers| == |steps| + 1 && ledgers[0] == Empty() &&
    (forall n :: 0 <= n < |steps| ==> ledgers[n + 1] == Next(ledgers[n], steps[n])) &&
    forall m, n :: 0 <= m < n < |steps| && steps[m].StepEvaluate? && steps[n].StepEvaluate? ==>
      steps[m].at < steps[n].at
  }

  /** Every version bears the time of the step, or that of an earlier version. */
  lemma TimesComeFrom(l: Ledger, step: Step, later: int)
    requires LedgerOk(l) && InTime(l, step)
    requires Newer(l.versions, later) && (step.StepEvaluate? ==> step.at < later)
    ensures Newer(Next(l, step).versions, later)
  {
    hide Trim, Sort, Stack, Superseding, Mark, VersionsOk, Accepted;
    ReadsBack(l);
    var before := Read(l);
    match step
    case StepRollback =>
      if before.active.Some? {
        MarkKeepsTimes(before.versions, before.active.value, RolledBack);
        var marked := Mark(before.versions, before.active.value, RolledBack);
        var picked := Sort(NewestFirst(None), Superseding(marked));
        if picked != [] {
          MarkKeepsTimes(marked, picked[0].id, Active);
        }
      }
    case StepEvaluate(proposal, at) =>
      if Records(before, step) {
        var v := Version(proposal.id, at, if proposal.passed then Active else Rejected, proposal.evidence);
        var grown := (if proposal.passed then Retire(before.versions) else before.versions) + [v];
        if proposal.passed {
          PushKeeps(before.versions, before.active, v);
        } else {
          RecordKeeps(before.versions, before.active, v);
        }
        assert Newer(grown, later);
        TrimIsNewer(grown, Next(l, step).active, later);
      } else if proposal.Candidate? {
        TrimIsNewer(before.versions, before.active, later);
      }
  }

  lemma TrimIsNewer(versions: seq<Version>, active: Option<VersionId>, later: int)
    requires VersionsOk(versions, active) && |versions| <= MAX_VERSIONS + 1 && Newer(versions, later)
    ensures Newer(Trim(versions, active), later)
  {
    hide Trim, VersionsOk, Stack;
    TrimKeeps(versions, active);
    forall i | 0 <= i < |Trim(versions, active)|
      ensures Trim(versions, active)[i].createdAt < later
    {
      assert Trim(versions, active)[i] in versions;
    }
  }

  lemma MarkKeepsTimes(versions: seq<Version>, id: VersionId, status: Status)
    ensures forall i :: 0 <= i < |versions| ==> Mark(versions, id, status)[i].createdAt == versions[i].createdAt
  {}

  lemma StepKeeps(l: Ledger, step: Step)
    requires LedgerOk(l) && InTime(l, step)
    ensures LedgerOk(Next(l, step))
  {
    hide VersionsOk, Trim, Retire, Mark, Stack, Accepted;
    ReadsBack(l);
    if Stored(l) {
      Refines(l, step);
    } else if step.StepEvaluate? {
      EmptyIsOk();
      ReadsBack(Empty());
      Refines(Empty(), step);
      assert Read(Empty()) == Empty();
      assert Next(l, step) == Next(Empty(), step);
    }
  }

  lemma EmptyIsOk()
    ensures LedgerOk(Empty()) && Stored(Empty())
  {}

  /** In every such run the ledger is a stack with its active version on top, and evaluations come in time. */
  lemma {:induction false} RunIsSafe(ledgers: seq<Ledger>, steps: seq<Step>, n: nat)
    requires Run(ledgers, steps) && n < |ledgers|
    ensures LedgerOk(ledgers[n])
    ensures forall k :: n <= k < |steps| ==> InTime(ledgers[n], steps[k])
    decreases n
  {
    hide LedgerOk, Next;
    if n == 0 {
      EmptyIsOk();
    } else {
      RunIsSafe(ledgers, steps, n - 1);
      StepKeeps(ledgers[n - 1], steps[n - 1]);
      forall k | n <= k < |steps|
        ensures InTime(ledgers[n], steps[k])
      {
        assert InTime(ledgers[n - 1], steps[k]);
        if steps[k].StepEvaluate? {
          TimesComeFrom(ledgers[n - 1], steps[n - 1], steps[k].at);
        }
      }
    }
  }
}
