/** The policy ledger is a bounded undo stack: promotion pushes, rollback pops, trimming drops the bottom. */
module PolicyLedgerProofs {
  import opened PolicyLedger
  import opened Wrappers

  // ---------------------------------------------------------------- sorting versions that are in order

  ghost predicate Ascending(versions: seq<Version>) {
    forall i, j :: 0 <= i < j < |versions| ==> versions[i].createdAt < versions[j].createdAt
  }

  function Reverse(versions: seq<Version>): (out: seq<Version>)
    ensures |out| == |versions|
  {
    if versions == [] then [] else Reverse(versions[1..]) + [versions[0]]
  }

  lemma {:induction false} ReverseSnoc(versions: seq<Version>, v: Version)
    ensures Reverse(versions + [v]) == [v] + Reverse(versions)
    decreases |versions|
  {
    if versions != [] {
      ReverseSnoc(versions[1..], v);
      assert (versions + [v])[1..] == versions[1..] + [v];
    }
  }

  /** The version that is kept ahead, and the others. */
  function Ahead(versions: seq<Version>, id: Option<VersionId>): seq<Version> {
    if versions == [] then [] else (if id == Some(versions[0].id) then [versions[0]] else []) + Ahead(versions[1..], id)
  }

  function Others(versions: seq<Version>, id: Option<VersionId>): seq<Version> {
    if versions == [] then []
    else (if id == Some(versions[0].id) then [] else [versions[0]]) + Others(versions[1..], id)
  }

  lemma {:induction false} InsertLast(order: Order, v: Version, sorted: seq<Version>)
    requires AllPrecede(order, sorted, v)
    ensures Insert(order, v, sorted) == sorted + [v]
    decreases |sorted|
  {
    if sorted != [] {
      InsertLast(order, v, sorted[1..]);
      assert [sorted[0]] + (sorted[1..] + [v]) == sorted + [v];
    }
  }

  ghost predicate AllPrecede(order: Order, versions: seq<Version>, v: Version) {
    forall x :: x in versions ==> Precedes(order, x, v)
  }

  /** Ranking adds no version. */
  lemma {:induction false} RankedWithin(versions: seq<Version>, id: Option<VersionId>)
    ensures forall x :: x in Ahead(versions, id) ==> x in versions
    ensures forall x :: x in Others(versions, id) ==> x in versions
    ensures forall x :: x in Reverse(versions) <==> x in versions
    decreases |versions|
  {
    if versions != [] {
      RankedWithin(versions[1..], id);
      assert versions == [versions[0]] + versions[1..];
    }
  }

  lemma {:induction false} NoneAhead(versions: seq<Version>, id: Option<VersionId>)
    requires forall i :: 0 <= i < |versions| ==> id != Some(versions[i].id)
    ensures Ahead(versions, id) == [] && Others(versions, id) == versions
    decreases |versions|
  {
    if versions != [] {
      NoneAhead(versions[1..], id);
    }
  }

  /** The oldest version is ranked last, unless it is the named one. */
  lemma OldestIsLast(versions: seq<Version>, id: Option<VersionId>)
    requires Ascending(versions) && versions != [] && id != Some(versions[0].id)
    ensures AllPrecede(NewestFirst(id), Ahead(versions[1..], id) + Reverse(Others(versions[1..], id)), versions[0])
  {
    RankedWithin(versions[1..], id);
    RankedWithin(Others(versions[1..], id), id);
    hide Ahead, Others, Reverse;
    forall x | x in versions[1..]
      ensures Precedes(NewestFirst(id), x, versions[0])
    {
    }
  }

  /** Newest first puts the named version ahead, and the others in reverse. */
  lemma {:induction false} SortNewestFirst(versions: seq<Version>, id: Option<VersionId>)
    requires Ascending(versions) && DistinctIds(versions)
    ensures Sort(NewestFirst(id), versions) == Ahead(versions, id) + Reverse(Others(versions, id))
    decreases |versions|
  {
    if versions != [] {
      hide Insert, Precedes, AllPrecede;
      var v, rest := versions[0], versions[1..];
      SortNewestFirst(rest, id);
      if id == Some(v.id) {
        NoneAhead(rest, id);
        RankedWithin(rest, id);
        assert Others(versions, id) == rest && Ahead(versions, id) == [v];
        assert [] + Reverse(rest) == Reverse(rest);
        InsertAhead(v, Reverse(rest));
      } else {
        RankOldest(versions, id);
      }
    }
  }

  lemma RankOldest(versions: seq<Version>, id: Option<VersionId>)
    requires Ascending(versions) && versions != [] && id != Some(versions[0].id)
    ensures Insert(NewestFirst(id), versions[0], Ahead(versions[1..], id) + Reverse(Others(versions[1..], id))) ==
            Ahead(versions, id) + Reverse(Others(versions, id))
  {
    var v, rest := versions[0], versions[1..];
    OldestIsLast(versions, id);
    hide *;
    var ahead, others := Ahead(rest, id), Others(rest, id);
    InsertLast(NewestFirst(id), v, ahead + Reverse(others));
    UnnamedFirst(versions, id);
    ReversePrepend(v, others);
    Associative(ahead, Reverse(others), [v]);
  }

  lemma UnnamedFirst(versions: seq<Version>, id: Option<VersionId>)
    requires versions != [] && id != Some(versions[0].id)
    ensures Ahead(versions, id) == Ahead(versions[1..], id)
    ensures Others(versions, id) == [versions[0]] + Others(versions[1..], id)
  {}

  lemma Associative(a: seq<Version>, b: seq<Version>, c: seq<Version>)
    ensures a + b + c == a + (b + c)
  {}

  lemma ReversePrepend(v: Version, versions: seq<Version>)
    ensures Reverse([v] + versions) == Reverse(versions) + [v]
  {
    assert ([v] + versions)[1..] == versions;
  }

  lemma InsertAhead(v: Version, sorted: seq<Version>)
    requires forall x :: x in sorted ==> x.id != v.id
    ensures Insert(NewestFirst(Some(v.id)), v, sorted) == [v] + sorted
  {
    assert sorted != [] ==> sorted[0] in sorted;
  }

  lemma {:induction false} SortReversed(versions: seq<Version>)
    requires Ascending(versions)
    ensures Sort(OldestFirst, Reverse(versions)) == versions
    decreases |versions|
  {
    if versions != [] {
      var last := |versions| - 1;
      SortReversed(versions[..last]);
      assert versions == versions[..last] + [versions[last]];
      ReverseSnoc(versions[..last], versions[last]);
      InsertLast(OldestFirst, versions[last], versions[..last]);
      assert Reverse(versions)[1..] == Reverse(versions[..last]);
    }
  }

  lemma {:induction false} InsertBack(versions: seq<Version>, p: nat)
    requires Ascending(versions) && p < |versions|
    ensures Insert(OldestFirst, versions[p], versions[..p] + versions[p + 1..]) == versions
    decreases p
  {
    if p == 0 {
      assert versions[..0] + versions[1..] == versions[1..];
    } else {
      InsertBack(versions[1..], p - 1);
      var others := versions[..p] + versions[p + 1..];
      assert others[1..] == versions[1..][..p - 1] + versions[1..][p..];
    }
  }

  lemma {:induction false} OthersAre(versions: seq<Version>, p: nat)
    requires DistinctIds(versions) && p < |versions|
    ensures Ahead(versions, Some(versions[p].id)) == [versions[p]]
    ensures Others(versions, Some(versions[p].id)) == versions[..p] + versions[p + 1..]
    decreases p
  {
    var id := Some(versions[p].id);
    if p == 0 {
      NoneAhead(versions[1..], id);
      assert versions[..0] + versions[1..] == versions[1..];
    } else {
      OthersAre(versions[1..], p - 1);
      assert versions[..p] + versions[p + 1..] == [versions[0]] + (versions[1..][..p - 1] + versions[1..][p..]);
    }
  }

  /** All but the oldest version that is not kept ahead. */
  function DropOldest(versions: seq<Version>, active: Option<VersionId>): seq<Version>
    requires |versions| > 1
  {
    if active == Some(versions[0].id) then [versions[0]] + versions[2..] else versions[1..]
  }

  lemma ReverseTake(versions: seq<Version>)
    requires versions != []
    ensures Reverse(versions)[..|versions| - 1] == Reverse(versions[1..])
  {}

  /** One version too many: trimming drops the oldest one that is not active, and keeps the order. */
  lemma TrimDropsOldest(versions: seq<Version>, active: Option<VersionId>)
    requires Ascending(versions) && DistinctIds(versions) && |versions| == MAX_VERSIONS + 1
    ensures Trim(versions, active) == DropOldest(versions, active)
  {
    hide Sort, Reverse, Ahead, Others;
    SortNewestFirst(versions, active);
    if p :| 0 <= p < |versions| && active == Some(versions[p].id) {
      KeepsActive(versions, p);
    } else {
      NoneAhead(versions, active);
      assert [] + Reverse(versions) == Reverse(versions);
      ReverseTake(versions);
      SortReversed(versions[1..]);
    }
  }

  lemma KeepsActive(versions: seq<Version>, p: nat)
    requires Ascending(versions) && DistinctIds(versions) && p < |versions| && |versions| > 1
    ensures var active := Some(versions[p].id);
            var ranked := Ahead(versions, active) + Reverse(Others(versions, active));
            |ranked| == |versions| && Sort(OldestFirst, ranked[..|versions| - 1]) == DropOldest(versions, active)
  {
    hide Sort, Reverse, Insert, Ahead, Others, DistinctIds, Ascending;
    OthersAre(versions, p);
    OthersTail(versions, p);
    var others := versions[..p] + versions[p + 1..];
    ReverseTake(others);
    assert ([versions[p]] + Reverse(others))[..|versions| - 1] == [versions[p]] + Reverse(others[1..]);
    SortReversed(others[1..]);
    SortFirst(versions[p], Reverse(others[1..]));
    if p > 0 {
      DistinctFirst(versions, p);
    }
  }

  /** Putting a version back among the others, without the oldest of them. */
  lemma OthersTail(versions: seq<Version>, p: nat)
    requires Ascending(versions) && p < |versions| && |versions| > 1
    ensures var tail := (versions[..p] + versions[p + 1..])[1..];
            Ascending(tail) &&
            Insert(OldestFirst, versions[p], tail) == if p == 0 then [versions[0]] + versions[2..] else versions[1..]
  {
    var tail := (versions[..p] + versions[p + 1..])[1..];
    if p == 0 {
      assert tail == versions[2..];
      InsertFirst(versions[0], versions[2..]);
    } else {
      assert tail == versions[1..][..p - 1] + versions[1..][p..];
      InsertBack(versions[1..], p - 1);
    }
  }

  lemma DistinctFirst(versions: seq<Version>, p: nat)
    requires DistinctIds(versions) && 0 < p < |versions|
    ensures versions[0].id != versions[p].id
  {}

  lemma SortFirst(v: Version, rest: seq<Version>)
    ensures Sort(OldestFirst, [v] + rest) == Insert(OldestFirst, v, Sort(OldestFirst, rest))
  {
    assert ([v] + rest)[1..] == rest;
  }

  lemma InsertFirst(v: Version, sorted: seq<Version>)
    requires sorted != [] ==> v.createdAt < sorted[0].createdAt
    ensures Insert(OldestFirst, v, sorted) == [v] + sorted
  {}

  // ---------------------------------------------------------------- the stack

  predicate OnStack(v: Version) { v.status == Active || v.status == Superseded }

  /** The versions that can still be active, oldest first. */
  function Stack(versions: seq<Version>): seq<VersionId> {
    if versions == [] then [] else (if OnStack(versions[0]) then [versions[0].id] else []) + Stack(versions[1..])
  }

  lemma {:induction false} StackConcat(a: seq<Version>, b: seq<Version>)
    ensures Stack(a + b) == Stack(a) + Stack(b)
    decreases |a|
  {
    if a == [] {
      assert a + b == b;
    } else {
      StackConcat(a[1..], b);
      assert (a + b)[1..] == a[1..] + b && (a + b)[0] == a[0];
      assert Stack(a + b) == Stack([a[0]]) + Stack(a[1..] + b) && Stack(a) == Stack([a[0]]) + Stack(a[1..]) by {
        assert [a[0]][1..] == [];
      }
    }
  }

  /** Where the top of the stack is, and that nothing above it is on the stack. */
  lemma {:induction false} TopIsLast(versions: seq<Version>, p: nat)
    requires DistinctIds(versions) && p < |versions| && OnStack(versions[p])
    requires Stack(versions) != [] && Stack(versions)[|Stack(versions)| - 1] == versions[p].id
    ensures forall i :: p < i < |versions| ==> !OnStack(versions[i])
    ensures Stack(versions[..p]) == Stack(versions)[..|Stack(versions)| - 1] && Stack(versions[p + 1..]) == []
  {
    var stack := Stack(versions);
    assert versions == versions[..p] + ([versions[p]] + versions[p + 1..]);
    StackConcat(versions[..p], [versions[p]] + versions[p + 1..]);
    assert Stack([versions[p]] + versions[p + 1..]) == [versions[p].id] + Stack(versions[p + 1..]) by {
      assert ([versions[p]] + versions[p + 1..])[1..] == versions[p + 1..];
    }
    var above := Stack(versions[p + 1..]);
    NotOnStack(versions[p + 1..], versions[p].id);
    LastIsIn(above);
    EmptyStack(versions[p + 1..]);
    forall i | p < i < |versions|
      ensures !OnStack(versions[i])
    {
      assert versions[i] == versions[p + 1..][i - p - 1];
    }
  }

  lemma LastIsIn(stack: seq<VersionId>)
    ensures stack != [] ==> stack[|stack| - 1] in stack
  {}

  lemma {:induction false} NotOnStack(versions: seq<Version>, id: VersionId)
    requires forall i :: 0 <= i < |versions| ==> versions[i].id != id
    ensures id !in Stack(versions)
    decreases |versions|
  {
    if versions != [] {
      NotOnStack(versions[1..], id);
    }
  }

  lemma {:induction false} StackIndex(versions: seq<Version>, n: nat) returns (i: nat)
    requires n < |Stack(versions)|
    ensures i < |versions| && versions[i].id == Stack(versions)[n] && OnStack(versions[i])
    decreases |versions|
  {
    if OnStack(versions[0]) && n == 0 {
      i := 0;
    } else {
      i := StackIndex(versions[1..], if OnStack(versions[0]) then n - 1 else n);
      i := i + 1;
    }
  }

  lemma {:induction false} EmptyStack(versions: seq<Version>)
    ensures Stack(versions) == [] <==> forall i :: 0 <= i < |versions| ==> !OnStack(versions[i])
    decreases |versions|
  {
    if versions != [] {
      EmptyStack(versions[1..]);
      if Stack(versions) == [] {
        forall i | 0 <= i < |versions|
          ensures !OnStack(versions[i])
        {
          assert i > 0 ==> versions[i] == versions[1..][i - 1];
        }
      } else if !OnStack(versions[0]) {
        var i :| 0 <= i < |versions[1..]| && OnStack(versions[1..][i]);
        assert OnStack(versions[i + 1]);
      }
    }
  }

  /** Changing statuses within the stack does not change it. */
  lemma {:induction false} SameStack(a: seq<Version>, b: seq<Version>)
    requires |a| == |b| && forall i :: 0 <= i < |a| ==> a[i].id == b[i].id && (OnStack(a[i]) <==> OnStack(b[i]))
    ensures Stack(a) == Stack(b)
    decreases |a|
  {
    if a != [] {
      SameStack(a[1..], b[1..]);
    }
  }

  function Top(stack: seq<VersionId>): Option<VersionId> {
    if stack == [] then None else Some(stack[|stack| - 1])
  }
}
