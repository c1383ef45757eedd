/** The index of a portfolio: two lists of names are compared by sorting each, joining it with NUL characters and
    comparing the texts. */
module PortfolioIndex {
  import opened SkillPortfolio

  /** The default order of texts: by code unit, and a prefix before what it begins. */
  predicate Before(a: string, b: string) {
    b != "" && (a == "" || a[0] < b[0] || (a[0] == b[0] && Before(a[1..], b[1..])))
  }

  function Joined(names: seq<string>): string {
    if names == [] then "" else if |names| == 1 then names[0] else names[0] + ['\0'] + Joined(names[1..])
  }

  predicate SameIndex(a: seq<string>, b: seq<string>) {
    Joined(Sort(Before, a)) == Joined(Sort(Before, b))
  }

  // ---------------------------------------------------------------- the order

  lemma {:induction false} BeforeIsTotal(a: string, b: string)
    ensures a == b <==> !Before(a, b) && !Before(b, a)
    ensures !(Before(a, b) && Before(b, a))
    decreases |a|
  {
    if a != "" && b != "" {
      BeforeIsTotal(a[1..], b[1..]);
      assert a == [a[0]] + a[1..] && b == [b[0]] + b[1..];
    }
  }

  lemma {:induction false} BeforeIsTransitive(a: string, b: string, c: string)
    requires Before(a, b) && !Before(c, b)
    ensures Before(a, c)
    decreases |a|
  {
    if a != "" && c != "" && a[0] == b[0] == c[0] {
      BeforeIsTransitive(a[1..], b[1..], c[1..]);
    }
  }

  /** Nothing in the rest comes before the first, and so on. */
  predicate Sorted(names: seq<string>) {
    names == [] || (Sorted(names[1..]) && forall x :: x in names[1..] ==> !Before(x, names[0]))
  }

  lemma {:induction false} InsertSorts(x: string, names: seq<string>)
    requires Sorted(names)
    ensures Sorted(Insert(Before, x, names))
    decreases |names|
  {
    if names != [] {
      InsertSame(Before, x, names[1..]);
      if Before(names[0], x) {
        InsertSorts(x, names[1..]);
        var rest := Insert(Before, x, names[1..]);
        forall y | y in rest
          ensures !Before(y, names[0])
        {
          assert y in multiset(rest);
          BeforeIsTotal(x, names[0]);
        }
      } else {
        forall y | y in names
          ensures !Before(y, x)
        {
          if Before(y, x) {
            BeforeIsTransitive(y, x, names[0]);
          }
        }
      }
    }
  }

  lemma {:induction false} SortSorts(names: seq<string>)
    ensures Sorted(Sort(Before, names))
    decreases |names|
  {
    if names != [] {
      SortSorts(names[1..]);
      InsertSorts(names[0], Sort(Before, names[1..]));
    }
  }

  /** A sorted list is determined by what it holds. */
  lemma {:induction false} SortedIsUnique(a: seq<string>, b: seq<string>)
    requires Sorted(a) && Sorted(b) && multiset(a) == multiset(b)
    ensures a == b
    decreases |a|
  {
    hide Before;
    assert |multiset(a)| == |multiset(b)|;
    if a != [] {
      SameFirst(a, b);
      SameRest(a, b);
      SortedIsUnique(a[1..], b[1..]);
      assert a == [a[0]] + a[1..] && b == [b[0]] + b[1..];
    }
  }

  lemma SameFirst(a: seq<string>, b: seq<string>)
    requires Sorted(a) && Sorted(b) && multiset(a) == multiset(b) && a != [] && b != []
    ensures a[0] == b[0]
  {
    hide Before;
    assert a[0] in multiset(b) && b[0] in multiset(a);
    BeforeIsTotal(a[0], b[0]);
  }

  lemma SameRest(a: seq<string>, b: seq<string>)
    requires multiset(a) == multiset(b) && a != [] && b != [] && a[0] == b[0]
    ensures multiset(a[1..]) == multiset(b[1..])
  {
    assert a == [a[0]] + a[1..] && b == [b[0]] + b[1..];
    assert multiset(a[1..]) == multiset(a) - multiset{a[0]};
    assert multiset(b[1..]) == multiset(b) - multiset{b[0]};
  }

  // ---------------------------------------------------------------- the joined text

  predicate NoNul(names: seq<string>) { forall i :: 0 <= i < |names| ==> '\0' !in names[i] }

  /** The only two lists that one cannot tell apart by their joined texts. */
  predicate EmptyTexts(a: seq<string>, b: seq<string>) {
    (a == [] && b == [""]) || (a == [""] && b == [])
  }

  lemma {:induction false} JoinedTellsApart(a: seq<string>, b: seq<string>)
    requires NoNul(a) && NoNul(b)
    ensures Joined(a) == Joined(b) <==> a == b || EmptyTexts(a, b)
    decreases |a|
  {
    if |a| > 1 && |b| > 1 {
      if Joined(a) == Joined(b) {
        HeadsEnd(a[0], Joined(a[1..]), b[0], Joined(b[1..]));
        JoinedTellsApart(a[1..], b[1..]);
        assert a == [a[0]] + a[1..] && b == [b[0]] + b[1..];
      }
    } else if |a| > 1 {
      assert Joined(a)[|a[0]|] == '\0';
    } else if |b| > 1 {
      assert Joined(b)[|b[0]|] == '\0';
    }
  }

  lemma HeadsEnd(a: string, x: string, b: string, y: string)
    requires '\0' !in a && '\0' !in b && a + ['\0'] + x == b + ['\0'] + y
    ensures a == b && x == y
  {
    var whole := a + ['\0'] + x;
    assert whole[|a|] == whole[|b|] == '\0';
    assert forall i :: 0 <= i < |a| ==> whole[i] in a;
    assert forall i :: 0 <= i < |b| ==> whole[i] in b;
    assert a == whole[..|a|] && x == whole[|a| + 1..];
  }

  // ---------------------------------------------------------------- what the comparison finds

  lemma SameHolds(a: seq<string>, b: seq<string>)
    requires multiset(a) == multiset(b)
    ensures SameIndex(a, b)
  {
    SortSorts(a);
    SortSorts(b);
    SortSame(Before, a);
    SortSame(Before, b);
    SortedIsUnique(Sort(Before, a), Sort(Before, b));
  }

  /** Among names without NUL the comparison finds exactly the lists that hold the same names equally often,
      except that it takes the list of one empty name for the empty list. */
  lemma SameIndexIs(a: seq<string>, b: seq<string>)
    requires NoNul(a) && NoNul(b)
    ensures SameIndex(a, b) <==> multiset(a) == multiset(b) || EmptyTexts(a, b)
  {
    hide EmptyTexts;
    NoNulSorted(a);
    NoNulSorted(b);
    JoinedTellsApart(Sort(Before, a), Sort(Before, b));
    SortSame(Before, a);
    SortSame(Before, b);
    if multiset(a) == multiset(b) {
      SameHolds(a, b);
    }
    EmptySorted(a, b);
  }

  lemma NoNulSorted(names: seq<string>)
    requires NoNul(names)
    ensures NoNul(Sort(Before, names))
  {
    SortSame(Before, names);
    var sorted := Sort(Before, names);
    forall i | 0 <= i < |sorted|
      ensures '\0' !in sorted[i]
    {
      assert sorted[i] in multiset(sorted);
      assert sorted[i] in names;
    }
  }

  lemma EmptySorted(a: seq<string>, b: seq<string>)
    ensures EmptyTexts(Sort(Before, a), Sort(Before, b)) <==> EmptyTexts(a, b)
  {
    ShortSorted(a);
    ShortSorted(b);
  }

  lemma ShortSorted(names: seq<string>)
    ensures Sort(Before, names) == [] <==> names == []
    ensures Sort(Before, names) == [""] <==> names == [""]
  {
    SortSame(Before, names);
    var sorted := Sort(Before, names);
    assert |multiset(names)| == |multiset(sorted)|;
    if |names| == 1 {
      assert names[0] in multiset(sorted);
    }
  }
}
