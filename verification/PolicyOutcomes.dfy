/** What an evaluation and a rollback report and leave behind, version by version. */
module PolicyOutcomes {
  import opened PolicyLedger
  import opened PolicyLedgerProofs
  import opened PolicyLedgerTheorems
  import opened Wrappers

  // ---------------------------------------------------------------- reading

  /** What any stored ledger, however it came about, must be like to be read. */
  ghost predicate WellKept(l: Ledger) {
    l.rollbacks <= 1_000_000 && |l.versions| <= 24 &&
    (forall v :: v in l.versions ==> v.evidence.runs <= 2_000 && v.evidence.skills <= 512 && v.evidence.proper) &&
    (forall v :: v in l.versions && v.status == Active ==> l.active == Some(v.id)) &&
    (l.active.Some? ==> exists v :: v in l.versions && v.status == Active) &&
    forall i, j :: 0 <= i < |l.versions| && 0 <= j < |l.versions| && l.versions[i].id == l.versions[j].id ==> i == j
  }

  /** Every other one counts as none. */
  lemma ReadIs(l: Ledger)
    ensures Read(l) == if WellKept(l) then l else Ledger(None, 0, [], Collecting)
  {
    if WellKept(l) {
      forall i | 0 <= i < |l.versions|
        ensures Sound(l.versions[i].evidence) && (l.versions[i].status == Active ==> l.active == Some(l.versions[i].id))
      {
        assert l.versions[i] in l.versions;
      }
      if l.active.Some? {
        var v :| v in l.versions && v.status == Active;
        var p :| 0 <= p < |l.versions| && l.versions[p] == v;
        assert IsActiveAt(l.versions, p, l.active.value);
      }
    }
    if Accepted(l) && l.active.Some? {
      var p :| 0 <= p < |l.versions| && IsActiveAt(l.versions, p, l.active.value);
      assert l.versions[p] in l.versions;
    }
  }

  // ---------------------------------------------------------------- evaluation

  /** The versions with the status that each of them had, but the active one superseded if another one is promoted. */
  ghost predicate CarriedOver(before: seq<Version>, after: seq<Version>, promoted: bool) {
    |after| == |before| && forall i :: 0 <= i < |before| ==> IsCarriedOver(before[i], after[i], promoted)
  }

  predicate IsCarriedOver(a: Version, b: Version, promoted: bool) {
    a.id == b.id && a.createdAt == b.createdAt && a.evidence == b.evidence &&
    b.status == if promoted && a.status == Active then Superseded else a.status
  }

  /** A full ledger makes room: its oldest version goes, unless that is to stay active. */
  function Kept(l: Ledger, promoted: bool): seq<Version> {
    if |l.versions| != 24 then l.versions
    else if l.active == Some(l.versions[0].id) && !promoted then [l.versions[0]] + l.versions[2..]
    else l.versions[1..]
  }

  /** No candidate is reported as collecting. One that is recorded already is reported as stable if it is active and as
      rejected otherwise, and nothing else changes. A new one is recorded last: promoted to active if it passed, which
      supersedes the active one, and rejected if not. */
  lemma EvaluationIs(l: Ledger, proposal: Proposal, at: int)
    requires LedgerOk(l) && Stored(l) && InTime(l, StepEvaluate(proposal, at))
    ensures var after := Evaluate(l, proposal, at);
            if proposal.NoCandidate? then after == l.(outcome := Collecting)
            else if l.active == Some(proposal.id) then after == l.(outcome := Stable)
            else if exists v :: v in l.versions && v.id == proposal.id then after == l.(outcome := Refused)
            else
              var last := |after.versions| - 1;
              last >= 0 && after.rollbacks == l.rollbacks &&
              after.outcome == (if proposal.passed then Promoted else Refused) &&
              after.active == (if proposal.passed then Some(proposal.id) else l.active) &&
              after.versions[last] ==
                Version(proposal.id, at, if proposal.passed then Active else Rejected, proposal.evidence) &&
              CarriedOver(Kept(l, proposal.passed), after.versions[..last], proposal.passed)
  {
    hide Trim, Retire, Accepted, VersionsOk, Sound;
    ReadsBack(l);
    if proposal.Candidate? {
      Recorded(l, proposal.id);
      if Find(l.versions, proposal.id) == |l.versions| {
        NewIsLast(l, proposal, at);
      } else {
        SmallStays(l);
      }
    }
  }

  lemma SmallStays(l: Ledger)
    requires LedgerOk(l)
    ensures Trim(l.versions, l.active) == l.versions
  {}

  /** Whether a version is recorded, and whether it is the active one. */
  lemma Recorded(l: Ledger, id: VersionId)
    requires LedgerOk(l)
    ensures Find(l.versions, id) < |l.versions| <==> exists v :: v in l.versions && v.id == id
    ensures l.active == Some(id) <==>
              Find(l.versions, id) < |l.versions| && l.versions[Find(l.versions, id)].status == Active
  {
    var p := Find(l.versions, id);
    if p < |l.versions| {
      assert l.versions[p] in l.versions;
    }
    if l.active == Some(id) {
      var q := TopIsThere(l.versions, l.active);
    }
  }

  lemma NewIsLast(l: Ledger, proposal: Proposal, at: int)
    requires LedgerOk(l) && Newer(l.versions, at) && proposal.Candidate?
    requires Find(l.versions, proposal.id) == |l.versions|
    ensures var v := Version(proposal.id, at, if proposal.passed then Active else Rejected, proposal.evidence);
            var active := if proposal.passed then Some(proposal.id) else l.active;
            var trimmed := Trim((if proposal.passed then Retire(l.versions) else l.versions) + [v], active);
            var last := |trimmed| - 1;
            last >= 0 && trimmed[last] == v && CarriedOver(Kept(l, proposal.passed), trimmed[..last], proposal.passed)
  {
    var v := Version(proposal.id, at, if proposal.passed then Active else Rejected, proposal.evidence);
    var active := if proposal.passed then Some(proposal.id) else l.active;
    var base := if proposal.passed then Retire(l.versions) else l.versions;
    RetireCarries(l.versions);
    hide Trim, Retire, CarriedOver, Kept;
    if proposal.passed {
      PushKeeps(l.versions, l.active, v);
    } else {
      RecordKeeps(l.versions, l.active, v);
    }
    TrimOneMore(base, v, active);
    assert proposal.passed && base != [] ==> active != Some(base[0].id) by {
      if proposal.passed && base != [] {
        Parts(base + [v], active);
        assert (base + [v])[0] == base[0] && (base + [v])[|base|] == v;
      }
    }
    DropsCarried(l, base, v, proposal.passed, Trim(base + [v], active));
  }

  lemma RetireCarries(versions: seq<Version>)
    ensures CarriedOver(versions, Retire(versions), true) && CarriedOver(versions, versions, false)
    ensures forall i :: 0 <= i < |versions| ==> Retire(versions)[i].id == versions[i].id
  {}

  lemma TrimOneMore(base: seq<Version>, v: Version, active: Option<VersionId>)
    requires VersionsOk(base + [v], active) && |base| <= 24
    ensures Trim(base + [v], active) ==
              if |base| < 24 then base + [v]
              else if active == Some(base[0].id) then [base[0]] + (base[2..] + [v])
              else base[1..] + [v]
  {
    Parts(base + [v], active);
    hide Trim, VersionsOk, Ascending, DistinctIds;
    if |base| == 24 {
      TrimDropsOldest(base + [v], active);
      assert (base + [v])[1..] == base[1..] + [v];
      assert (base + [v])[2..] == base[2..] + [v];
    } else {
      SmallTrim(base + [v], active);
    }
  }

  lemma SmallTrim(versions: seq<Version>, active: Option<VersionId>)
    requires |versions| <= 24
    ensures Trim(versions, active) == versions
  {}

  lemma DropsCarried(l: Ledger, base: seq<Version>, v: Version, passed: bool, trimmed: seq<Version>)
    requires |base| == |l.versions| <= 24 && CarriedOver(l.versions, base, passed)
    requires trimmed == if |base| != 24 then base + [v]
                        else if l.active == Some(base[0].id) && !passed then [base[0]] + (base[2..] + [v])
                        else base[1..] + [v]
    ensures var last := |trimmed| - 1;
            last >= 0 && trimmed[last] == v && CarriedOver(Kept(l, passed), trimmed[..last], passed)
  {}

  // ---------------------------------------------------------------- rollback

  ghost predicate NewestSuperseded(versions: seq<Version>, i: nat)
    requires i < |versions|
  {
    versions[i].status == Superseded &&
    forall j :: 0 <= j < |versions| && versions[j].status == Superseded ==>
      versions[j].createdAt <= versions[i].createdAt
  }

  /** Of two versions, the first is what the rollback makes of the second. */
  ghost predicate RolledTo(versions: seq<Version>, i: nat, b: Version)
    requires i < |versions|
  {
    b == versions[i].(status := if versions[i].status == Active then RolledBack
                                else if NewestSuperseded(versions, i) then Active
                                else versions[i].status)
  }

  /** A rollback takes the active version back for good, makes the newest superseded one active again, or the baseline
      if there is none, counts itself and leaves everything else; under the baseline it does nothing. */
  lemma RollbackIs(l: Ledger)
    requires LedgerOk(l) && Stored(l)
    ensures var after := Rollback(l);
            if l.active.None? then after == l
            else
              after.outcome == Undone && after.rollbacks == l.rollbacks + 1 && |after.versions| == |l.versions| &&
              (forall i :: 0 <= i < |l.versions| ==> RolledTo(l.versions, i, after.versions[i])) &&
              (after.active.None? <==> forall i :: 0 <= i < |l.versions| ==> l.versions[i].status != Superseded) &&
              forall i :: 0 <= i < |l.versions| && NewestSuperseded(l.versions, i) ==>
                after.active == Some(l.versions[i].id)
  {
    hide Sort, Superseding, Stack, Accepted, Sound, Mark, NewestSuperseded;
    ReadsBack(l);
    if l.active.Some? {
      var p := TopIsThere(l.versions, l.active);
      MarkAt(l.versions, p, RolledBack);
      var marked := l.versions[p := l.versions[p].(status := RolledBack)];
      var superseded := Superseding(marked);
      assert Ascending(superseded) && DistinctIds(superseded) by {
        assert Ascending(marked) && DistinctIds(marked);
        SupersedingOrdered(marked);
      }
      NewestIsLast(superseded);
      var q := LastSuperseded(marked);
      forall i | 0 <= i < |l.versions|
        ensures l.versions[i].status == Superseded <==> marked[i].status == Superseded
        ensures l.versions[i].status == Active <==> i == p
      {
        assert l.versions[i].status == Active ==> l.versions[i].id == l.versions[p].id;
      }
      if superseded != [] {
        MarkAt(marked, q, Active);
        assert l.versions[q].status == Superseded;
        NewestIs(l.versions, q);
      } else {
        forall i | 0 <= i < |l.versions|
          ensures l.versions[i].status != Superseded && !NewestSuperseded(l.versions, i)
        {
          assert marked[i].status != Superseded;
          OnlySuperseded(l.versions, i);
        }
      }
    }
  }

  lemma OnlySuperseded(versions: seq<Version>, i: nat)
    requires i < |versions| && versions[i].status != Superseded
    ensures !NewestSuperseded(versions, i)
  {}

  lemma NewestIs(versions: seq<Version>, q: nat)
    requires Ascending(versions) && q < |versions| && versions[q].status == Superseded
    requires forall i :: q < i < |versions| ==> versions[i].status != Superseded
    ensures forall i :: 0 <= i < |versions| ==> (NewestSuperseded(versions, i) <==> i == q)
  {
    forall i | 0 <= i < |versions|
      ensures NewestSuperseded(versions, i) <==> i == q
    {
    }
  }

  lemma {:induction false} SupersedingOrdered(versions: seq<Version>)
    requires Ascending(versions) && DistinctIds(versions)
    ensures Ascending(Superseding(versions)) && DistinctIds(Superseding(versions))
    ensures forall v :: v in Superseding(versions) ==> v in versions
    decreases |versions|
  {
    if versions != [] {
      SupersedingOrdered(versions[1..]);
      var rest := Superseding(versions[1..]);
      forall i | 0 <= i < |rest|
        ensures versions[0].createdAt < rest[i].createdAt && versions[0].id != rest[i].id
      {
        assert rest[i] in rest;
        var k :| 0 <= k < |versions[1..]| && versions[1..][k] == rest[i];
        assert versions[k + 1] == rest[i];
      }
    }
  }

  /** The place of the last superseded version. */
  lemma {:induction false} LastSuperseded(versions: seq<Version>) returns (q: nat)
    ensures Superseding(versions) == [] <==> forall i :: 0 <= i < |versions| ==> versions[i].status != Superseded
    ensures Superseding(versions) != [] ==>
              q < |versions| && versions[q] == Superseding(versions)[|Superseding(versions)| - 1] &&
              versions[q].status == Superseded &&
              forall i :: q < i < |versions| ==> versions[i].status != Superseded
    decreases |versions|
  {
    q := 0;
    if versions != [] {
      var m := LastSuperseded(versions[1..]);
      var rest, all := Superseding(versions[1..]), Superseding(versions);
      assert forall i :: 0 < i < |versions| ==> versions[i] == versions[1..][i - 1];
      assert all == (if versions[0].status == Superseded then [versions[0]] else []) + rest;
      hide Superseding;
      if rest != [] {
        q := m + 1;
        assert all[|all| - 1] == rest[|rest| - 1];
      }
    }
  }
}
