/** The second round of planning gives the remaining places to the best candidates of all owners together. */
module PortfolioOrder {
  import opened SkillPortfolio

  ghost predicate StrictTotal<T(!new)>(before: (T, T) -> bool) {
    (forall x :: !before(x, x)) &&
    (forall x, y :: x != y ==> before(x, y) || before(y, x)) &&
    forall x, y, z :: before(x, y) && before(y, z) ==> before(x, z)
  }

  ghost predicate Ordered<T(!new)>(before: (T, T) -> bool, items: seq<T>) {
    forall p, q :: 0 <= p < q < |items| ==> !before(items[q], items[p])
  }

  lemma {:induction false} InsertOrders<T(!new)>(before: (T, T) -> bool, x: T, items: seq<T>)
    requires StrictTotal(before) && Ordered(before, items)
    ensures Ordered(before, Insert(before, x, items))
    decreases |items|
  {
    if items != [] && before(items[0], x) {
      var rest := Insert(before, x, items[1..]);
      InsertOrders(before, x, items[1..]);
      InsertSame(before, x, items[1..]);
      forall q | 0 <= q < |rest|
        ensures !before(rest[q], items[0])
      {
        assert rest[q] in multiset(rest);
        if rest[q] != x {
          var k :| 0 <= k < |items[1..]| && items[1..][k] == rest[q];
          assert items[k + 1] == rest[q];
        }
      }
    }
  }

  lemma {:induction false} SortOrders<T(!new)>(before: (T, T) -> bool, items: seq<T>)
    requires StrictTotal(before)
    ensures Ordered(before, Sort(before, items))
    decreases |items|
  {
    if items != [] {
      SortOrders(before, items[1..]);
      InsertOrders(before, items[0], Sort(before, items[1..]));
    }
  }

  // ---------------------------------------------------------------- when a candidate is considered

  /** What has been given out before candidate n is considered. */
  function Before(lanes: seq<Lane>, maxUnique: nat, s: Shares, candidates: seq<Candidate>, n: nat): Shares
    requires n <= |candidates|
  {
    Fill(lanes, maxUnique, s, candidates[..n])
  }

  lemma {:induction false} FillOneMore(lanes: seq<Lane>, maxUnique: nat, s: Shares, candidates: seq<Candidate>,
      c: Candidate)
    ensures Fill(lanes, maxUnique, s, candidates + [c]) ==
              Assign(lanes, maxUnique, Fill(lanes, maxUnique, s, candidates), c)
    decreases |candidates|
  {
    var more := candidates + [c];
    if candidates != [] {
      assert more[1..] == candidates[1..] + [c];
      FillOneMore(lanes, maxUnique, Assign(lanes, maxUnique, s, candidates[0]), candidates[1..], c);
    } else {
      assert more[1..] == [];
    }
  }

  lemma NextIs(lanes: seq<Lane>, maxUnique: nat, s: Shares, candidates: seq<Candidate>, n: nat)
    requires n < |candidates|
    ensures Before(lanes, maxUnique, s, candidates, n + 1) ==
              Assign(lanes, maxUnique, Before(lanes, maxUnique, s, candidates, n), candidates[n])
  {
    assert candidates[..n + 1] == candidates[..n] + [candidates[n]];
    FillOneMore(lanes, maxUnique, s, candidates[..n], candidates[n]);
  }

  /** Nothing that has been given out is taken back. */
  lemma {:induction false} GrowsFrom(lanes: seq<Lane>, maxUnique: nat, s: Shares, candidates: seq<Candidate>, m: nat,
      n: nat)
    requires m <= n <= |candidates|
    ensures Extends(Before(lanes, maxUnique, s, candidates, m), Before(lanes, maxUnique, s, candidates, n))
    decreases n
  {
    if m < n {
      GrowsFrom(lanes, maxUnique, s, candidates, m, n - 1);
      NextIs(lanes, maxUnique, s, candidates, n - 1);
    }
  }

  /** Whatever an owner gets in the second round, it gets when that candidate is considered. */
  lemma {:induction false} GivenAt(lanes: seq<Lane>, maxUnique: nat, s: Shares, candidates: seq<Candidate>, n: nat,
      i: nat, k: nat) returns (q: nat)
    requires n <= |candidates| && i < |s.owned|
    requires var t := Before(lanes, maxUnique, s, candidates, n);
             |t.owned| == |s.owned| && |s.owned[i]| <= k < |t.owned[i]|
    ensures q < n && candidates[q] == Candidate(i, Before(lanes, maxUnique, s, candidates, n).owned[i][k])
    ensures CanTake(lanes, maxUnique, Before(lanes, maxUnique, s, candidates, q), candidates[q])
    decreases n
  {
    hide CanTake;
    q := 0;
    assert candidates[..0] == [];
    if n > 0 {
      var before := Before(lanes, maxUnique, s, candidates, n - 1);
      NextIs(lanes, maxUnique, s, candidates, n - 1);
      GrowsFrom(lanes, maxUnique, s, candidates, 0, n - 1);
      if k < |before.owned[i]| {
        q := GivenAt(lanes, maxUnique, s, candidates, n - 1, i, k);
      } else {
        q := n - 1;
      }
    }
  }

  /** A candidate that is considered and not taken was blocked. */
  lemma TakenOrBlocked(lanes: seq<Lane>, maxUnique: nat, s: Shares, candidates: seq<Candidate>, p: nat)
    requires p < |candidates| && CanTake(lanes, maxUnique, Before(lanes, maxUnique, s, candidates, p), candidates[p])
    ensures candidates[p].skill in Before(lanes, maxUnique, s, candidates, p + 1).used
  {
    NextIs(lanes, maxUnique, s, candidates, p);
  }

  lemma {:induction false} FirstRoundGivesOne(lanes: seq<Lane>, maxUnique: nat, n: nat, i: nat)
    requires n <= |lanes| && i < |lanes|
    ensures var s := FirstRound(lanes, maxUnique, n);
            |s.owned| == |lanes| && |s.owned[i]| <= if i < n then 1 else 0
    decreases n
  {
    if n > 0 {
      FirstRoundGivesOne(lanes, maxUnique, n - 1, i);
    }
  }

  // ---------------------------------------------------------------- the best come first

  /** Candidate c could have had the place that d was given: if it had come before d, it would have it. */
  lemma NotBefore(lanes: seq<Lane>, maxUnique: nat, s: Shares, candidates: seq<Candidate>, p: nat, q: nat)
    requires p < |candidates| && q < |candidates| && |s.owned| == |lanes|
    requires candidates[p].lane < |lanes|
    requires CanTake(lanes, maxUnique, Before(lanes, maxUnique, s, candidates, q), candidates[q])
    requires var t := Before(lanes, maxUnique, s, candidates, |candidates|); var c := candidates[p];
             |t.owned| == |lanes| && (c.skill !in t.used || c.skill == candidates[q].skill) &&
             (|t.owned[c.lane]| < lanes[c.lane].maxSkills || c.lane == candidates[q].lane)
    ensures p >= q
  {
    if p < q {
      GrowsFrom(lanes, maxUnique, s, candidates, 0, p);
      GrowsFrom(lanes, maxUnique, s, candidates, p, q);
      GrowsFrom(lanes, maxUnique, s, candidates, q, |candidates|);
      GrowsFrom(lanes, maxUnique, s, candidates, p + 1, q);
      assert candidates[..0] == [];
      TakenOrBlocked(lanes, maxUnique, s, candidates, p);
    }
  }

  /** A place that the second round gave out went to the best: no chosen candidate comes before the one that got it
      if its skill stayed unused, or is the one given out, and its owner has room left, or is the one that got it. */
  lemma BestComeFirst(lanes: seq<Lane>, maxUnique: nat, before: (Candidate, Candidate) -> bool, c: Candidate, i: nat,
      k: nat)
    requires StrictTotal(before) && c.lane < |lanes| && c.skill in lanes[c.lane].selection && i < |lanes|
    requires var s := Plan(lanes, maxUnique, before);
             |s.owned| == |lanes| && 1 <= k < |s.owned[i]| &&
             (c.skill !in s.used || c.skill == s.owned[i][k]) &&
             (|s.owned[c.lane]| < lanes[c.lane].maxSkills || c.lane == i)
    ensures !before(c, Candidate(i, Plan(lanes, maxUnique, before).owned[i][k]))
  {
    hide Fill, FirstRound, Sort, Candidates;
    var first, all := FirstRound(lanes, maxUnique, |lanes|), Candidates(lanes, |lanes|);
    var candidates := Sort(before, all);
    FirstRoundGivesOne(lanes, maxUnique, |lanes|, i);
    CandidatesAre(lanes, |lanes|);
    SortSame(before, all);
    SortOrders(before, all);
    assert c in multiset(all) && c in multiset(candidates);
    assert candidates[..|candidates|] == candidates;
    var p :| 0 <= p < |candidates| && candidates[p] == c;
    var q := GivenAt(lanes, maxUnique, first, candidates, |candidates|, i, k);
    NotBefore(lanes, maxUnique, first, candidates, p, q);
  }
}
