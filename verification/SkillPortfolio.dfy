/** Sharing the skills of a task among its participants: every skill goes to one owner, within the cap of
    each owner and of the task, and nothing is left unassigned without one of these reasons. */
module SkillPortfolio {

  type SkillId = string

  datatype Role = Worker | Manager | Validator

  /** A participant with its ranked, role-filtered choice of skills. */
  datatype Lane = Lane(role: Role, maxSkills: nat, selection: seq<SkillId>)

  /** What every lane owns, and all skills in use in the order in which they were given out. */
  datatype Shares = Shares(owned: seq<seq<SkillId>>, used: seq<SkillId>)

  datatype Candidate = Candidate(lane: nat, skill: SkillId)

  function NoShares(lanes: seq<Lane>): Shares { Shares(seq(|lanes|, _ => []), []) }

  predicate CanTake(lanes: seq<Lane>, maxUnique: nat, s: Shares, c: Candidate) {
    c.lane < |lanes| && c.lane < |s.owned| && c.skill !in s.used && |s.used| < maxUnique &&
    |s.owned[c.lane]| < lanes[c.lane].maxSkills
  }

  function Assign(lanes: seq<Lane>, maxUnique: nat, s: Shares, c: Candidate): Shares {
    if CanTake(lanes, maxUnique, s, c)
    then Shares(s.owned[c.lane := s.owned[c.lane] + [c.skill]], s.used + [c.skill])
    else s
  }

  function FirstUnused(selection: seq<SkillId>, used: seq<SkillId>): (n: nat)
    ensures n <= |selection|
    ensures n < |selection| ==> selection[n] !in used
    ensures forall k :: 0 <= k < n ==> selection[k] in used
  {
    if selection == [] || selection[0] !in used then 0 else 1 + FirstUnused(selection[1..], used)
  }

  /** The first n lanes in turn take the best skill that nobody has yet. */
  function FirstRound(lanes: seq<Lane>, maxUnique: nat, n: nat): Shares
    requires n <= |lanes|
  {
    if n == 0 then NoShares(lanes)
    else
      var s := FirstRound(lanes, maxUnique, n - 1);
      var lane := lanes[n - 1];
      var k := FirstUnused(lane.selection, s.used);
      if k < |lane.selection| then Assign(lanes, maxUnique, s, Candidate(n - 1, lane.selection[k])) else s
  }

  function Fill(lanes: seq<Lane>, maxUnique: nat, s: Shares, candidates: seq<Candidate>): Shares
    decreases |candidates|
  {
    if candidates == [] then s else Fill(lanes, maxUnique, Assign(lanes, maxUnique, s, candidates[0]), candidates[1..])
  }

  function Candidates(lanes: seq<Lane>, n: nat): seq<Candidate>
    requires n <= |lanes|
  {
    if n == 0 then []
    else
      var ids := lanes[n - 1].selection;
      Candidates(lanes, n - 1) + seq(|ids|, k requires 0 <= k < |ids| => Candidate(n - 1, ids[k]))
  }

  function Insert<T>(before: (T, T) -> bool, x: T, sorted: seq<T>): seq<T> {
    if sorted == [] then [x]
    else if before(sorted[0], x) then [sorted[0]] + Insert(before, x, sorted[1..])
    else [x] + sorted
  }

  /** A sort by any comparison. */
  function Sort<T>(before: (T, T) -> bool, items: seq<T>): seq<T> {
    if items == [] then [] else Insert(before, items[0], Sort(before, items[1..]))
  }

  function Plan(lanes: seq<Lane>, maxUnique: nat, before: (Candidate, Candidate) -> bool): Shares {
    Fill(lanes, maxUnique, FirstRound(lanes, maxUnique, |lanes|), Sort(before, Candidates(lanes, |lanes|)))
  }

  // ---------------------------------------------------------------- the loops

  method PlanPortfolio(lanes: seq<Lane>, maxUnique: nat, before: (Candidate, Candidate) -> bool) returns (s: Shares)
    ensures s == Plan(lanes, maxUnique, before)
  {
    s := NoShares(lanes);
    for i := 0 to |lanes|
      invariant s == FirstRound(lanes, maxUnique, i)
    {
      var k := 0;
      while k < |lanes[i].selection| && lanes[i].selection[k] in s.used
        invariant k <= |lanes[i].selection|
        invariant FirstUnused(lanes[i].selection, s.used) == k + FirstUnused(lanes[i].selection[k..], s.used)
      {
        k := k + 1;
      }
      if k < |lanes[i].selection| {
        s := Assign(lanes, maxUnique, s, Candidate(i, lanes[i].selection[k]));
      }
    }
    var all := [];
    for i := 0 to |lanes|
      invariant all == Candidates(lanes, i)
    {
      var own := [];
      for k := 0 to |lanes[i].selection|
        invariant own == seq(k, j requires 0 <= j < k => Candidate(i, lanes[i].selection[j]))
      {
        own := own + [Candidate(i, lanes[i].selection[k])];
      }
      all := all + own;
    }
    var candidates := Sort(before, all);
    for k := 0 to |candidates|
      invariant Fill(lanes, maxUnique, s, candidates[k..]) == Plan(lanes, maxUnique, before)
    {
      s := Assign(lanes, maxUnique, s, candidates[k]);
    }
  }

  // ---------------------------------------------------------------- what every assignment keeps

  ghost predicate Distinct<T>(items: seq<T>) { forall i, j :: 0 <= i < j < |items| ==> items[i] != items[j] }

  /** Caps, single ownership, and nobody owns what it did not choose. */
  ghost predicate SharesOk(lanes: seq<Lane>, maxUnique: nat, s: Shares) {
    |s.owned| == |lanes| && |s.used| <= maxUnique && Distinct(s.used) &&
    (forall i :: 0 <= i < |lanes| ==> LaneOk(lanes[i], s.owned[i], s.used)) &&
    (forall i, j, x :: 0 <= i < |lanes| && 0 <= j < |lanes| && x in s.owned[i] && x in s.owned[j] ==> i == j) &&
    forall x :: x in s.used ==> exists i :: 0 <= i < |s.owned| && x in s.owned[i]
  }

  ghost predicate LaneOk(lane: Lane, owned: seq<SkillId>, used: seq<SkillId>) {
    |owned| <= lane.maxSkills && Distinct(owned) && forall x :: x in owned ==> x in used && x in lane.selection
  }

  lemma AssignKeeps(lanes: seq<Lane>, maxUnique: nat, s: Shares, c: Candidate)
    requires SharesOk(lanes, maxUnique, s) && c.lane < |lanes| && c.skill in lanes[c.lane].selection
    ensures SharesOk(lanes, maxUnique, Assign(lanes, maxUnique, s, c))
  {
    if CanTake(lanes, maxUnique, s, c) {
      var t := Assign(lanes, maxUnique, s, c);
      forall i | 0 <= i < |lanes|
        ensures LaneOk(lanes[i], t.owned[i], t.used)
      {
        assert LaneOk(lanes[i], s.owned[i], s.used);
      }
      forall i, x | 0 <= i < |lanes| && x in t.owned[i]
        ensures x in s.owned[i] || (i == c.lane && x == c.skill)
      {
      }
      forall i | 0 <= i < |lanes|
        ensures c.skill !in s.owned[i]
      {
        assert LaneOk(lanes[i], s.owned[i], s.used);
      }
      forall x | x in t.used
        ensures exists i :: 0 <= i < |t.owned| && x in t.owned[i]
      {
        if x == c.skill {
          assert x in t.owned[c.lane];
        } else {
          var i :| 0 <= i < |s.owned| && x in s.owned[i];
          assert x in t.owned[i];
        }
      }
    }
  }

  lemma {:induction false} FirstRoundKeeps(lanes: seq<Lane>, maxUnique: nat, n: nat)
    requires n <= |lanes|
    ensures SharesOk(lanes, maxUnique, FirstRound(lanes, maxUnique, n))
    decreases n
  {
    if n > 0 {
      FirstRoundKeeps(lanes, maxUnique, n - 1);
      var s := FirstRound(lanes, maxUnique, n - 1);
      var k := FirstUnused(lanes[n - 1].selection, s.used);
      if k < |lanes[n - 1].selection| {
        AssignKeeps(lanes, maxUnique, s, Candidate(n - 1, lanes[n - 1].selection[k]));
      }
    }
  }

  ghost predicate AllChosen(lanes: seq<Lane>, candidates: seq<Candidate>) {
    forall c :: c in candidates ==> c.lane < |lanes| && c.skill in lanes[c.lane].selection
  }

  /** Owned and used lists only grow at their ends. */
  ghost predicate Extends(s: Shares, t: Shares) {
    s.used <= t.used && |s.owned| == |t.owned| && forall i :: 0 <= i < |s.owned| ==> s.owned[i] <= t.owned[i]
  }

  /** Why a candidate was not taken, if it was not. */
  predicate Blocked(lanes: seq<Lane>, maxUnique: nat, s: Shares, c: Candidate) {
    c.lane < |lanes| && c.lane < |s.owned| &&
    (c.skill in s.used || |s.used| >= maxUnique || |s.owned[c.lane]| >= lanes[c.lane].maxSkills)
  }

  lemma {:induction false} FillKeeps(lanes: seq<Lane>, maxUnique: nat, s: Shares, candidates: seq<Candidate>)
    requires SharesOk(lanes, maxUnique, s) && AllChosen(lanes, candidates)
    ensures var t := Fill(lanes, maxUnique, s, candidates);
            SharesOk(lanes, maxUnique, t) && Extends(s, t) &&
            forall c :: c in candidates ==> Blocked(lanes, maxUnique, t, c)
    decreases |candidates|
  {
    hide SharesOk;
    if candidates != [] {
      var c := candidates[0];
      var next := Assign(lanes, maxUnique, s, c);
      AssignKeeps(lanes, maxUnique, s, c);
      SharesHaveLanes(lanes, maxUnique, s);
      FillKeeps(lanes, maxUnique, next, candidates[1..]);
      assert Extends(s, next) && Blocked(lanes, maxUnique, next, c);
      assert candidates == [c] + candidates[1..];
    }
  }

  lemma SharesHaveLanes(lanes: seq<Lane>, maxUnique: nat, s: Shares)
    requires SharesOk(lanes, maxUnique, s)
    ensures |s.owned| == |lanes|
  {}

  // ---------------------------------------------------------------- sorting and collecting candidates

  lemma {:induction false} InsertSame<T>(before: (T, T) -> bool, x: T, sorted: seq<T>)
    ensures multiset(Insert(before, x, sorted)) == multiset(sorted) + multiset{x}
    decreases |sorted|
  {
    if sorted != [] {
      InsertSame(before, x, sorted[1..]);
      assert sorted == [sorted[0]] + sorted[1..];
    }
  }

  lemma {:induction false} SortSame<T>(before: (T, T) -> bool, items: seq<T>)
    ensures multiset(Sort(before, items)) == multiset(items)
    decreases |items|
  {
    if items != [] {
      SortSame(before, items[1..]);
      InsertSame(before, items[0], Sort(before, items[1..]));
      assert items == [items[0]] + items[1..];
    }
  }

  lemma {:induction false} CandidatesAre(lanes: seq<Lane>, n: nat)
    requires n <= |lanes|
    ensures AllChosen(lanes, Candidates(lanes, n))
    ensures forall i, x :: 0 <= i < n && x in lanes[i].selection ==> Candidate(i, x) in Candidates(lanes, n)
    decreases n
  {
    if n > 0 {
      CandidatesAre(lanes, n - 1);
      var selection := lanes[n - 1].selection;
      var own := seq(|selection|, k requires 0 <= k < |selection| => Candidate(n - 1, selection[k]));
      forall x | x in selection
        ensures Candidate(n - 1, x) in own
      {
        var k :| 0 <= k < |selection| && selection[k] == x;
        assert own[k] == Candidate(n - 1, x);
      }
      assert Candidates(lanes, n) == Candidates(lanes, n - 1) + own;
      forall i, x | 0 <= i < n && x in lanes[i].selection
        ensures Candidate(i, x) in Candidates(lanes, n)
      {
        assert i < n - 1 ==> Candidate(i, x) in Candidates(lanes, n - 1);
      }
    }
  }

  // ---------------------------------------------------------------- the plan

  /** The plan respects both caps and gives each skill to one owner that chose it; and it is maximal: a
      chosen skill that is not in use belongs to an owner that is full, or the task is. */
  lemma PlanIsMaximal(lanes: seq<Lane>, maxUnique: nat, before: (Candidate, Candidate) -> bool)
    ensures var s := Plan(lanes, maxUnique, before);
            SharesOk(lanes, maxUnique, s) &&
            forall i, x :: 0 <= i < |lanes| && x in lanes[i].selection ==> Blocked(lanes, maxUnique, s, Candidate(i, x))
    ensures Extends(FirstRound(lanes, maxUnique, |lanes|), Plan(lanes, maxUnique, before))
  {
    hide SharesOk, Fill, FirstRound, Sort, Candidates, Extends, Blocked;
    var all := Candidates(lanes, |lanes|);
    var candidates := Sort(before, all);
    FirstRoundKeeps(lanes, maxUnique, |lanes|);
    CandidatesAre(lanes, |lanes|);
    SortSame(before, all);
    forall c
      ensures c in candidates <==> c in all
    {
      assert c in multiset(candidates) <==> c in multiset(all);
    }
    FillKeeps(lanes, maxUnique, FirstRound(lanes, maxUnique, |lanes|), candidates);
  }

  /** Every lane that may own a skill at all gets one of its own, unless its whole choice went to others
      or the task is full. */
  lemma EveryLaneIsServed(lanes: seq<Lane>, maxUnique: nat, before: (Candidate, Candidate) -> bool, i: nat)
    requires i < |lanes| && lanes[i].maxSkills > 0
    ensures var s := Plan(lanes, maxUnique, before);
            |s.owned| == |lanes| &&
            (s.owned[i] != [] || |s.used| >= maxUnique || forall x :: x in lanes[i].selection ==> x in s.used)
  {
    hide Plan;
    PlanIsMaximal(lanes, maxUnique, before);
    var s := Plan(lanes, maxUnique, before);
    forall x | x in lanes[i].selection
      ensures s.owned[i] != [] || |s.used| >= maxUnique || x in s.used
    {
      assert Blocked(lanes, maxUnique, s, Candidate(i, x));
    }
  }

  // ---------------------------------------------------------------- primaries

  /** Skill x is the first skill of one of the first n lanes. */
  ghost predicate IsPrimary(owned: seq<seq<SkillId>>, n: nat, x: SkillId) {
    exists j :: 0 <= j < n && j < |owned| && owned[j] != [] && owned[j][0] == x
  }

  /** What lane i owns first is its best choice, apart from the primaries of earlier lanes. */
  ghost predicate BestForLane(lanes: seq<Lane>, owned: seq<seq<SkillId>>, i: nat)
    requires i < |lanes| && i < |owned| && owned[i] != []
  {
    exists k :: 0 <= k < |lanes[i].selection| && lanes[i].selection[k] == owned[i][0] &&
      forall m :: 0 <= m < k ==> IsPrimary(owned, i, lanes[i].selection[m])
  }

  ghost predicate LaneStuck(lanes: seq<Lane>, maxUnique: nat, s: Shares, i: nat)
    requires i < |lanes| && i < |s.owned|
  {
    |s.used| >= maxUnique || |s.owned[i]| >= lanes[i].maxSkills || forall x :: x in lanes[i].selection ==> x in s.used
  }

  /** After the first round of n lanes: every one has its best primary or is stuck, and only primaries are used. */
  ghost predicate RoundOk(lanes: seq<Lane>, maxUnique: nat, s: Shares, n: nat) {
    |s.owned| == |lanes| && n <= |lanes| &&
    (forall i :: n <= i < |lanes| ==> s.owned[i] == []) &&
    (forall x :: x in s.used ==> IsPrimary(s.owned, n, x)) &&
    forall i :: 0 <= i < n ==>
      if s.owned[i] != [] then BestForLane(lanes, s.owned, i) else LaneStuck(lanes, maxUnique, s, i)
  }

  lemma {:induction false} FirstRoundIsBest(lanes: seq<Lane>, maxUnique: nat, n: nat)
    requires n <= |lanes|
    ensures RoundOk(lanes, maxUnique, FirstRound(lanes, maxUnique, n), n)
    decreases n
  {
    if n > 0 {
      FirstRoundIsBest(lanes, maxUnique, n - 1);
      var s, t := FirstRound(lanes, maxUnique, n - 1), FirstRound(lanes, maxUnique, n);
      var selection := lanes[n - 1].selection;
      var k := FirstUnused(selection, s.used);
      if k < |selection| && CanTake(lanes, maxUnique, s, Candidate(n - 1, selection[k])) {
        forall x, m | 0 <= m <= n && IsPrimary(s.owned, m, x)
          ensures IsPrimary(t.owned, m, x)
        {
          var j :| 0 <= j < m && j < |s.owned| && s.owned[j] != [] && s.owned[j][0] == x;
          assert t.owned[j] == s.owned[j];
        }
        forall i | 0 <= i < n - 1
          ensures if t.owned[i] != [] then BestForLane(lanes, t.owned, i) else LaneStuck(lanes, maxUnique, t, i)
        {
          assert t.owned[i] == s.owned[i];
        }
        assert t.owned[n - 1] == [selection[k]];
        assert BestForLane(lanes, t.owned, n - 1);
        forall x | x in t.used
          ensures IsPrimary(t.owned, n, x)
        {
          assert x in s.used || t.owned[n - 1][0] == x;
        }
      } else {
        assert t == s;
        forall x | x in s.used
          ensures IsPrimary(s.owned, n, x)
        {
          assert IsPrimary(s.owned, n - 1, x);
        }
      }
    }
  }

  /** A lane that is stuck stays stuck. */
  lemma {:induction false} StuckStays(lanes: seq<Lane>, maxUnique: nat, s: Shares, candidates: seq<Candidate>, i: nat)
    requires i < |lanes| && |s.owned| == |lanes| && AllChosen(lanes, candidates) && LaneStuck(lanes, maxUnique, s, i)
    ensures var t := Fill(lanes, maxUnique, s, candidates); |t.owned| == |lanes| && t.owned[i] == s.owned[i]
    decreases |candidates|
  {
    if candidates != [] {
      var c := candidates[0];
      var next := Assign(lanes, maxUnique, s, c);
      assert c in candidates;
      assert next.owned[i] == s.owned[i];
      StuckStays(lanes, maxUnique, next, candidates[1..], i);
    }
  }

  /** Each lane's first skill is the best of its choice: whatever it ranks higher is the first skill of an
      earlier lane. */
  lemma PrimariesAreBest(lanes: seq<Lane>, maxUnique: nat, before: (Candidate, Candidate) -> bool, i: nat)
    requires i < |lanes|
    ensures var s := Plan(lanes, maxUnique, before);
            |s.owned| == |lanes| && (s.owned[i] != [] ==> BestForLane(lanes, s.owned, i))
  {
    hide Fill, FirstRound, Sort, SharesOk, LaneStuck;
    var round, s := FirstRound(lanes, maxUnique, |lanes|), Plan(lanes, maxUnique, before);
    PlanIsMaximal(lanes, maxUnique, before);
    SharesHaveLanes(lanes, maxUnique, s);
    FirstRoundIsBest(lanes, maxUnique, |lanes|);
    if round.owned[i] == [] {
      SortedAreChosen(lanes, before);
      StuckStays(lanes, maxUnique, round, Sort(before, Candidates(lanes, |lanes|)), i);
    } else {
      StillBest(lanes, round.owned, s.owned, i);
    }
  }

  lemma SortedAreChosen(lanes: seq<Lane>, before: (Candidate, Candidate) -> bool)
    ensures AllChosen(lanes, Sort(before, Candidates(lanes, |lanes|)))
  {
    hide Sort, Candidates;
    CandidatesAre(lanes, |lanes|);
    SortSame(before, Candidates(lanes, |lanes|));
    forall c | c in Sort(before, Candidates(lanes, |lanes|))
      ensures c in Candidates(lanes, |lanes|)
    {
      assert c in multiset(Sort(before, Candidates(lanes, |lanes|)));
    }
  }

  lemma StillBest(lanes: seq<Lane>, a: seq<seq<SkillId>>, b: seq<seq<SkillId>>, i: nat)
    requires |a| == |b| == |lanes| && i < |lanes| && a[i] != [] && BestForLane(lanes, a, i)
    requires forall j :: 0 <= j < |a| ==> a[j] <= b[j]
    ensures b[i] != [] && BestForLane(lanes, b, i)
  {
    var k :| 0 <= k < |lanes[i].selection| && lanes[i].selection[k] == a[i][0] &&
      forall m :: 0 <= m < k ==> IsPrimary(a, i, lanes[i].selection[m]);
    forall m | 0 <= m < k
      ensures IsPrimary(b, i, lanes[i].selection[m])
    {
      var j :| 0 <= j < i && j < |a| && a[j] != [] && a[j][0] == lanes[i].selection[m];
      assert a[j] <= b[j] && b[j][0] == lanes[i].selection[m];
    }
    assert a[i] <= b[i] && b[i][0] == a[i][0];
  }
}
