/** Dependency graphs, their cycles, and what it means for a number to be the depth of a node. */
module DependencyGraph {
  import opened Wrappers

  type Id = string

  /** Each node with the nodes it depends on. */
  type Graph = map<Id, seq<Id>>

  ghost predicate Closed(g: Graph) {
    forall v, w :: v in g && w in g[v] ==> w in g
  }

  ghost predicate IsPath(g: Graph, p: seq<Id>) {
    p != [] && (forall i :: 0 <= i < |p| ==> p[i] in g) &&
    forall i, j :: 0 <= i < |p| && 0 <= j < |p| && j == i + 1 ==> p[j] in g[p[i]]
  }

  ghost predicate IsCycle(g: Graph, p: seq<Id>) {
    IsPath(g, p) && |p| >= 2 && p[0] == p[|p| - 1]
  }

  ghost predicate Acyclic(g: Graph) {
    !exists p :: IsCycle(g, p)
  }

  /** On the nodes it covers, d satisfies the depth recurrence: 0 without dependencies, otherwise one
      more than the deepest dependency. */
  ghost predicate DepthMap(g: Graph, d: map<Id, nat>) {
    forall v :: v in d ==> DepthAt(g, d, v)
  }

  ghost predicate DepthAt(g: Graph, d: map<Id, nat>, v: Id)
    requires v in d
  {
    v in g && (forall w :: w in g[v] ==> w in d && d[w] < d[v]) &&
    (d[v] == 0 || exists w :: w in g[v] && w in d && d[w] + 1 == d[v])
  }

  /** No chain of dependencies that starts at a covered node is longer than its depth. */
  lemma {:induction false} DepthBoundsPaths(g: Graph, d: map<Id, nat>, p: seq<Id>)
    requires DepthMap(g, d) && IsPath(g, p) && p[0] in d
    ensures |p| - 1 <= d[p[0]]
    ensures p[|p| - 1] in d && d[p[|p| - 1]] + |p| - 1 <= d[p[0]]
    decreases |p|
  {
    hide DepthMap, DepthAt;
    if |p| > 1 {
      var rest := p[1..];
      PathTail(g, p);
      DependencyIsShallower(g, d, p[0], p[1]);
      assert rest[0] == p[1] && rest[|rest| - 1] == p[|p| - 1];
      DepthBoundsPaths(g, d, rest);
    }
  }

  lemma DependencyIsShallower(g: Graph, d: map<Id, nat>, v: Id, w: Id)
    requires DepthMap(g, d) && v in d && v in g && w in g[v]
    ensures w in d && d[w] < d[v]
  {
    assert DepthAt(g, d, v);
  }

  lemma PathTail(g: Graph, p: seq<Id>)
    requires IsPath(g, p) && |p| > 1
    ensures p[1] in g[p[0]] && IsPath(g, p[1..])
  {
    var rest := p[1..];
    forall i, j | 0 <= i < |rest| && 0 <= j < |rest| && j == i + 1
      ensures rest[j] in g[rest[i]]
    {
      assert p[j + 1] in g[p[i + 1]];
    }
  }

  lemma PathExtends(g: Graph, v: Id, p: seq<Id>)
    requires IsPath(g, p) && v in g && p[0] in g[v]
    ensures IsPath(g, [v] + p)
  {
    var q := [v] + p;
    forall i, j | 0 <= i < |q| && 0 <= j < |q| && j == i + 1
      ensures q[j] in g[q[i]]
    {
      if i > 0 {
        assert p[j - 1] in g[p[i - 1]];
      }
    }
  }

  /** Some chain of dependencies is exactly as long as the depth says. */
  lemma {:induction false} DepthIsReached(g: Graph, d: map<Id, nat>, v: Id) returns (p: seq<Id>)
    requires DepthMap(g, d) && v in d
    ensures IsPath(g, p) && p[0] == v && |p| - 1 == d[v]
    decreases d[v]
  {
    assert DepthAt(g, d, v);
    if d[v] == 0 {
      p := [v];
    } else {
      var w :| w in g[v] && w in d && d[w] + 1 == d[v];
      var rest := DepthIsReached(g, d, w);
      PathExtends(g, v, rest);
      p := [v] + rest;
    }
  }

  /** A depth for every node rules out cycles. */
  lemma DepthsExcludeCycles(g: Graph, d: map<Id, nat>)
    requires DepthMap(g, d) && d.Keys == g.Keys
    ensures Acyclic(g)
  {
    forall p | IsCycle(g, p)
      ensures false
    {
      DepthBoundsPaths(g, d, p);
    }
  }

  /** The recurrence has one solution, so a computed depth is the longest chain and nothing else. */
  lemma DepthIsUnique(g: Graph, d: map<Id, nat>, e: map<Id, nat>, v: Id)
    requires DepthMap(g, d) && DepthMap(g, e) && v in d && v in e
    ensures d[v] == e[v]
  {
    var p := DepthIsReached(g, d, v);
    var q := DepthIsReached(g, e, v);
    DepthBoundsPaths(g, e, p);
    DepthBoundsPaths(g, d, q);
  }

  // ---------------------------------------------------------------- the stack of a depth-first search

  /** The stack is a duplicate-free dependency path. */
  ghost predicate IsStack(g: Graph, stack: seq<Id>) {
    (stack == [] || IsPath(g, stack)) &&
    forall i, j :: 0 <= i < j < |stack| ==> stack[i] != stack[j]
  }

  ghost predicate CanPush(g: Graph, stack: seq<Id>, id: Id) {
    id in g && (stack == [] || (stack[|stack| - 1] in g && id in g[stack[|stack| - 1]]))
  }

  lemma PushKeepsPath(g: Graph, stack: seq<Id>, id: Id)
    requires (stack == [] || IsPath(g, stack)) && CanPush(g, stack, id)
    ensures IsPath(g, stack + [id])
  {
    var p := stack + [id];
    forall i, j | 0 <= i < |p| && 0 <= j < |p| && j == i + 1
      ensures p[j] in g[p[i]]
    {
      if j < |stack| {
        assert stack[j] in g[stack[i]];
      }
    }
  }

  /** Meeting a node of the stack again closes a genuine cycle. */
  lemma StackClosesCycle(g: Graph, stack: seq<Id>, id: Id, start: nat)
    requires IsStack(g, stack) && CanPush(g, stack, id) && start < |stack| && stack[start] == id
    ensures IsCycle(g, stack[start..] + [id])
  {
    PushKeepsPath(g, stack, id);
    var p, q := stack + [id], stack[start..] + [id];
    assert q == p[start..];
    forall i, j | 0 <= i < |q| && 0 <= j < |q| && j == i + 1
      ensures q[j] in g[q[i]]
    {
      assert p[start + j] in g[p[start + i]];
    }
  }

  method IndexOf(stack: seq<Id>, id: Id) returns (index: nat)
    requires id in stack
    ensures index < |stack| && stack[index] == id
    ensures forall k :: 0 <= k < index ==> stack[k] != id
  {
    index := 0;
    while stack[index] != id
      invariant index < |stack|
      invariant forall k :: 0 <= k < index ==> stack[k] != id
      decreases |stack| - index
    {
      if index + 1 == |stack| {
        assert false;
      }
      index := index + 1;
    }
  }
}
