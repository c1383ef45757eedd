/** The policy ledger over whole runs: which runs keep it readable, and that along those it is exactly the
    bounded undo stack of their operations. */
module PolicyLedgerRuns {
  import opened PolicyLedger
  import opened PolicyLedgerProofs
  import opened PolicyLedgerTheorems
  import opened Wrappers

  // ---------------------------------------------------------------- one step

  predicate RollsBack(l: Ledger, step: Step) { step.StepRollback? && l.active.Some? }

  predicate SoundCandidate(l: Ledger, step: Step) { Records(l, step) ==> Sound(step.proposal.evidence) }

  /** The guards of validation, as a caller can check them beforehand. */
  predicate KeepsStored(l: Ledger, step: Step) {
    SoundCandidate(l, step) && (RollsBack(l, step) ==> l.rollbacks < MAX_ROLLBACKS)
  }

  ghost predicate AllSound(versions: seq<Version>) {
    forall v :: v in versions ==> Sound(v.evidence)
  }

  lemma StoredIs(l: Ledger)
    ensures Stored(l) <==> l.rollbacks <= MAX_ROLLBACKS && AllSound(l.versions)
  {
    if Stored(l) {
      forall v | v in l.versions
        ensures Sound(v.evidence)
      {
        var i :| 0 <= i < |l.versions| && l.versions[i] == v;
      }
    } else if AllSound(l.versions) && l.rollbacks <= MAX_ROLLBACKS {
      forall i | 0 <= i < |l.versions|
        ensures Sound(l.versions[i].evidence)
      {
        assert l.versions[i] in l.versions;
      }
    }
  }

  lemma MarkKeepsSound(versions: seq<Version>, id: VersionId, status: Status)
    requires AllSound(versions)
    ensures AllSound(Mark(versions, id, status))
  {
    forall v | v in Mark(versions, id, status)
      ensures Sound(v.evidence)
    {
      var i :| 0 <= i < |versions| && Mark(versions, id, status)[i] == v;
      assert versions[i] in versions && versions[i].evidence == v.evidence;
    }
  }

  lemma RetireKeepsSound(versions: seq<Version>)
    requires AllSound(versions)
    ensures AllSound(Retire(versions))
  {
    forall v | v in Retire(versions)
      ensures Sound(v.evidence)
    {
      var i :| 0 <= i < |versions| && Retire(versions)[i] == v;
      assert versions[i] in versions && versions[i].evidence == v.evidence;
    }
  }

  /** What has just been recorded is not trimmed away. */
  lemma TrimKeepsLast(versions: seq<Version>, active: Option<VersionId>)
    requires VersionsOk(versions, active) && 0 < |versions| <= MAX_VERSIONS + 1
    ensures versions[|versions| - 1] in Trim(versions, active)
  {
    hide Sort, VersionsOk;
    if |versions| > MAX_VERSIONS {
      Parts(versions, active);
      TrimDropsOldest(versions, active);
      var kept := DropOldest(versions, active);
      assert kept[|kept| - 1] == versions[|versions| - 1];
    }
  }

  lemma RecordingIsSound(l: Ledger, id: VersionId, evidence: Evidence, passed: bool, at: int)
    requires LedgerOk(l) && AllSound(l.versions) && Newer(l.versions, at) && Fresh(l.versions, id)
    ensures var v := Version(id, at, if passed then Active else Rejected, evidence);
            var trimmed := Trim((if passed then Retire(l.versions) else l.versions) + [v],
                                if passed then Some(id) else l.active);
            AllSound(trimmed) <==> Sound(evidence)
  {
    var v := Version(id, at, if passed then Active else Rejected, evidence);
    var grown := (if passed then Retire(l.versions) else l.versions) + [v];
    var active := if passed then Some(id) else l.active;
    if passed {
      PushKeeps(l.versions, l.active, v);
      RetireKeepsSound(l.versions);
    } else {
      RecordKeeps(l.versions, l.active, v);
    }
    hide VersionsOk, Trim, Stack, Retire, Sound;
    TrimKeeps(grown, active);
    TrimKeepsLast(grown, active);
    assert grown[|grown| - 1] == v;
  }

  lemma RollbackCounts(l: Ledger)
    requires LedgerOk(l) && Stored(l)
    ensures Rollback(l).rollbacks == l.rollbacks + (if l.active.Some? then 1 else 0) && AllSound(Rollback(l).versions)
  {
    hide Mark, Sort, Superseding, AllSound, Accepted, VersionsOk;
    ReadsBack(l);
    StoredIs(l);
    if l.active.Some? {
      var marked := Mark(l.versions, l.active.value, RolledBack);
      MarkKeepsSound(l.versions, l.active.value, RolledBack);
      var picked := Sort(NewestFirst(None), Superseding(marked));
      if picked != [] {
        MarkKeepsSound(marked, picked[0].id, Active);
      }
    }
  }

  /** A step leaves a ledger that reads back as it is, exactly under the guards. */
  lemma StoredStays(l: Ledger, step: Step)
    requires LedgerOk(l) && Stored(l) && InTime(l, step)
    ensures Stored(Next(l, step)) <==> KeepsStored(l, step)
    ensures Next(l, step).rollbacks == l.rollbacks + if RollsBack(l, step) then 1 else 0
  {
    hide Trim, Retire, Mark, Sort, AllSound, Accepted, VersionsOk, Sound;
    ReadsBack(l);
    StoredIs(l);
    StoredIs(Next(l, step));
    match step
    case StepRollback => RollbackCounts(l);
    case StepEvaluate(proposal, at) =>
      if Records(l, step) {
        RecordingIsSound(l, proposal.id, proposal.evidence, proposal.passed, at);
      } else if proposal.Candidate? {
        TrimSmall(l);
      }
  }

  lemma TrimSmall(l: Ledger)
    requires LedgerOk(l)
    ensures Trim(l.versions, l.active) == l.versions
  {}

  // ---------------------------------------------------------------- every run

  /** The undo stack of the first n operations: pushes and pops, less what a full ledger lost. */
  function Folded(ledgers: seq<Ledger>, steps: seq<Step>, n: nat): seq<VersionId>
    requires n <= |steps| < |ledgers|
  {
    if n == 0 then []
    else
      var moved := MovedFrom(Folded(ledgers, steps, n - 1), ledgers[n - 1], steps[n - 1]);
      if LosesBottom(ledgers[n - 1], steps[n - 1]) && moved != [] then moved[1..] else moved
  }

  function EffectiveRollbacks(ledgers: seq<Ledger>, steps: seq<Step>, n: nat): nat
    requires n <= |steps| < |ledgers|
  {
    if n == 0 then 0
    else EffectiveRollbacks(ledgers, steps, n - 1) + if RollsBack(ledgers[n - 1], steps[n - 1]) then 1 else 0
  }

  ghost predicate CandidatesSound(ledgers: seq<Ledger>, steps: seq<Step>, n: nat)
    requires n <= |steps| < |ledgers|
  {
    forall k :: 0 <= k < n ==> SoundCandidate(ledgers[k], steps[k])
  }

  ghost predicate StoredUpTo(ledgers: seq<Ledger>, n: nat)
    requires n < |ledgers|
  {
    forall k :: 0 <= k <= n ==> Stored(ledgers[k])
  }

  /** Along every run the ledger reads back as it was written exactly as long as the recorded candidates are
      sound and no more than the permitted number of rollbacks took effect; and as long as that is so, its
      stack is the undo stack of the operations, with the active version on top. */
  lemma {:induction false} RunRefines(ledgers: seq<Ledger>, steps: seq<Step>, n: nat)
    requires Run(ledgers, steps) && n <= |steps|
    ensures StoredUpTo(ledgers, n) <==>
              CandidatesSound(ledgers, steps, n) && EffectiveRollbacks(ledgers, steps, n) <= MAX_ROLLBACKS
    ensures StoredUpTo(ledgers, n) ==>
              Read(ledgers[n]) == ledgers[n] && Stack(ledgers[n].versions) == Folded(ledgers, steps, n) &&
              ledgers[n].active == Top(Folded(ledgers, steps, n)) &&
              ledgers[n].rollbacks == EffectiveRollbacks(ledgers, steps, n)
    ensures !Stored(ledgers[n]) ==> Read(ledgers[n]) == Empty()
    decreases n
  {
    hide LedgerOk, Next, Stored, Stack, SoundCandidate, LosesBottom, MovedFrom;
    RunIsSafe(ledgers, steps, n);
    ReadsBack(ledgers[n]);
    TopIsActive(ledgers[n]);
    if n == 0 {
      EmptyIsOk();
      EmptyStackFirst();
    } else {
      RunRefines(ledgers, steps, n - 1);
      RunIsSafe(ledgers, steps, n - 1);
      assert StoredUpTo(ledgers, n) <==> StoredUpTo(ledgers, n - 1) && Stored(ledgers[n]);
      if StoredUpTo(ledgers, n - 1) {
        assert Stored(ledgers[n - 1]);
        StoredStays(ledgers[n - 1], steps[n - 1]);
        Refines(ledgers[n - 1], steps[n - 1]);
        BottomIsThere(ledgers[n - 1], steps[n - 1]);
      }
    }
  }

  lemma BottomIsThere(l: Ledger, step: Step)
    ensures LosesBottom(l, step) ==> Moved(l, step) != []
  {}

  lemma EmptyStackFirst()
    ensures Stack(Empty().versions) == [] && Empty().rollbacks == 0
  {}

  // ---------------------------------------------------------------- losing the ledger

  /** The rollback after the millionth is written and then not read back: the next evaluation starts from
      nothing, although two versions were retained. */
  lemma RollbackLimitLosesLedger()
    ensures var e := Evidence(3, 1, true);
            var versions := [Version("b", 0, Rejected, e), Version("a", 1, Active, e)];
            var l := Ledger(Some("a"), MAX_ROLLBACKS, versions, Promoted);
            LedgerOk(l) && Stored(l) && |Rollback(l).versions| == 2 && !Stored(Rollback(l)) &&
            Read(Rollback(l)) == Empty() && Evaluate(Rollback(l), NoCandidate, 2) == Empty()
  {
    var e := Evidence(3, 1, true);
    var v, w := Version("b", 0, Rejected, e), Version("a", 1, Active, e);
    var l := Ledger(Some("a"), MAX_ROLLBACKS, [v, w], Promoted);
    assert Stack([w]) == ["a"] by {
      StackOne([], w);
      assert [] + [w] == [w];
    }
    assert Stack([v, w]) == ["a"] by {
      StackHead([v, w]);
      assert [v, w][1..] == [w];
    }
    assert LedgerOk(l) && Stored(l);
    RollbackKeepsLength(l);
    StoredStays(l, StepRollback);
    StepKeeps(l, StepRollback);
    ReadsBack(Rollback(l));
  }

  lemma RollbackKeepsLength(l: Ledger)
    requires LedgerOk(l) && Stored(l)
    ensures |Rollback(l).versions| == |l.versions|
  {
    hide Sort, Superseding;
    ReadsBack(l);
  }

  /** A candidate with more than 512 skills is promoted and then not read back: the policy is lost at once. */
  lemma BigCandidateLosesLedger()
    ensures var promoted := Evaluate(Empty(), Candidate("a", Evidence(3, 513, true), true), 0);
            promoted.active == Some("a") && Read(promoted) == Empty() && Evaluate(promoted, NoCandidate, 1) == Empty()
  {
    var step := StepEvaluate(Candidate("a", Evidence(3, 513, true), true), 0);
    EmptyIsOk();
    StoredStays(Empty(), step);
    StepKeeps(Empty(), step);
    ReadsBack(Next(Empty(), step));
    ReadsBack(Empty());
  }
}
