/** The policy store as an object over its stored ledger. */
module PolicyStore {
  import opened PolicyLedger
  import opened PolicyLedgerProofs
  import opened PolicyLedgerTheorems
  import opened Wrappers

  class LearningPolicyStore {
    var stored: Ledger

    ghost predicate Valid()
      reads this
    {
      LedgerOk(stored)
    }

    constructor ()
      ensures Valid() && stored == Empty()
    {
      stored := Empty();
      new;
      EmptyIsOk();
    }

    method ReadLedger() returns (l: Ledger)
      ensures l == Read(stored)
    {
      return if Accepted(stored) then stored else Empty();
    }

    method FindVersion(versions: seq<Version>, id: VersionId) returns (p: nat)
      ensures p == Find(versions, id)
    {
      p := 0;
      while p < |versions| && versions[p].id != id
        invariant p <= |versions|
        invariant Find(versions, id) == p + Find(versions[p..], id)
      {
        p := p + 1;
      }
    }

    /** Records a candidate: a promoted one supersedes the active version, a rejected one is only kept. */
    method EvaluateAndPromote(proposal: Proposal, evaluatedAt: int)
      requires Valid() && InTime(stored, StepEvaluate(proposal, evaluatedAt))
      modifies this
      ensures Valid() && stored == Evaluate(old(stored), proposal, evaluatedAt)
    {
      StepKeeps(stored, StepEvaluate(proposal, evaluatedAt));
      hide LedgerOk, Trim, Accepted, Find;
      var ledger := ReadLedger();
      match proposal {
        case NoCandidate =>
          ledger := ledger.(outcome := Collecting);
        case Candidate(id, evidence, passed) =>
          var existing := FindVersion(ledger.versions, id);
          if passed && existing == |ledger.versions| {
            var versions := ledger.versions;
            for i := 0 to |versions|
              invariant |versions| == |ledger.versions|
              invariant forall j :: 0 <= j < |versions| ==>
                          versions[j] == if j < i then Retire(ledger.versions)[j] else ledger.versions[j]
            {
              if versions[i].status == Active {
                versions := versions[i := versions[i].(status := Superseded)];
              }
            }
            assert versions == Retire(ledger.versions);
            ledger := ledger.(versions := versions + [Version(id, evaluatedAt, Active, evidence)],
                              active := Some(id), outcome := Promoted);
          } else if existing == |ledger.versions| {
            ledger := ledger.(versions := ledger.versions + [Version(id, evaluatedAt, Rejected, evidence)],
                              outcome := Refused);
          } else if ledger.versions[existing].status == Active {
            ledger := ledger.(outcome := Stable);
          } else {
            ledger := ledger.(outcome := Refused);
          }
          ledger := ledger.(versions := Trim(ledger.versions, ledger.active));
      }
      stored := ledger;
    }

    method SupersededVersions(versions: seq<Version>) returns (out: seq<Version>)
      ensures out == Superseding(versions)
    {
      out := [];
      for i := 0 to |versions|
        invariant Superseding(versions) == out + Superseding(versions[i..])
      {
        if versions[i].status == Superseded {
          out := out + [versions[i]];
        }
      }
    }

    method MarkVersion(versions: seq<Version>, id: VersionId, status: Status) returns (out: seq<Version>)
      ensures out == Mark(versions, id, status)
    {
      var p := FindVersion(versions, id);
      return if p < |versions| then versions[p := versions[p].(status := status)] else versions;
    }

    /** Takes the active version back and reinstates the newest superseded one, or the baseline. */
    method RollBack() returns (changed: bool)
      requires Valid()
      modifies this
      ensures Valid() && stored == Rollback(old(stored))
      ensures changed <==> Read(old(stored)).active.Some?
    {
      StepKeeps(stored, StepRollback);
      hide LedgerOk, Sort, Superseding, Accepted, Find, Mark, InTime;
      var ledger := ReadLedger();
      if ledger.active.None? { return false; }
      var versions := MarkVersion(ledger.versions, ledger.active.value, RolledBack);
      var superseded := SupersededVersions(versions);
      var candidates := Sort(NewestFirst(None), superseded);
      if candidates == [] {
        ledger := Ledger(None, ledger.rollbacks + 1, versions, Undone);
      } else {
        versions := MarkVersion(versions, candidates[0].id, Active);
        ledger := Ledger(Some(candidates[0].id), ledger.rollbacks + 1, versions, Undone);
      }
      stored := ledger;
      return true;
    }
  }
}
