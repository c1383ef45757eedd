/** The depth-first search over task dependencies: cycle detection and depth memo in one pass. */
module TaskDepths {
  import opened DependencyGraph

  datatype Visit = Depth(depth: nat) | Cycle(path: seq<Id>)

  class DepthSearch {
    const graph: Graph
    var visiting: set<Id>
    var visited: set<Id>
    var stack: seq<Id>
    var depthById: map<Id, nat>

    ghost predicate Valid()
      reads this
    {
      Closed(graph) && IsStack(graph, stack) &&
      (forall id :: id in visiting <==> id in stack) && visited !! visiting &&
      visited == depthById.Keys && DepthMap(graph, depthById)
    }

    constructor (graph: Graph)
      requires Closed(graph)
      ensures Valid() && this.graph == graph && stack == [] && depthById == map[]
    {
      this.graph := graph;
      visiting, visited, stack, depthById := {}, {}, [], map[];
    }

    method Visit(id: Id) returns (result: Visit)
      requires Valid() && CanPush(graph, stack, id)
      modifies this
      ensures result.Depth? ==> Valid() && stack == old(stack) && visiting == old(visiting)
      ensures result.Depth? ==> Extends(old(depthById), depthById)
      ensures result.Depth? ==> id in depthById && depthById[id] == result.depth
      ensures result.Cycle? ==> IsCycle(graph, result.path)
      decreases graph.Keys - visiting
    {
      hide IsPath, IsCycle, DepthAt, DepthMap, IsStack;
      if id in visiting {
        var cycleStart := IndexOf(stack, id);
        StackClosesCycle(graph, stack, id, cycleStart);
        return Cycle(stack[cycleStart..] + [id]);
      }
      if id in visited {
        return Depth(depthById[id]);
      }
      Enter(id);
      var dependencies := graph[id];
      var deepest, i := 0, 0;
      while i < |dependencies|
        invariant 0 <= i <= |dependencies|
        invariant Valid() && stack == old(stack) + [id] && visiting == old(visiting) + {id}
        invariant Extends(old(depthById), depthById)
        invariant forall k :: 0 <= k < i ==> dependencies[k] in depthById && depthById[dependencies[k]] < deepest
        invariant if i == 0 then deepest == 0
                  else exists k ::
                         0 <= k < i && dependencies[k] in depthById && depthById[dependencies[k]] + 1 == deepest
      {
        ghost var known := depthById;
        var visit := Visit(dependencies[i]);
        if visit.Cycle? {
          return visit;
        }
        if visit.depth + 1 > deepest {
          deepest := visit.depth + 1;
        }
        i := i + 1;
      }
      Leave(id, deepest);
      result := Depth(deepest);
    }

    method Enter(id: Id)
      requires Valid() && CanPush(graph, stack, id) && id !in visiting && id !in visited
      modifies this
      ensures Valid() && stack == old(stack) + [id] && visiting == old(visiting) + {id} && depthById == old(depthById)
    {
      hide IsPath, DepthMap, IsStack;
      PushKeepsStack(graph, stack, id);
      visiting := visiting + {id};
      stack := stack + [id];
    }

    method Leave(id: Id, depth: nat)
      requires Valid() && stack != [] && stack[|stack| - 1] == id && id in graph
      requires forall w :: w in graph[id] ==> w in depthById && depthById[w] < depth
      requires depth == 0 || exists w :: w in graph[id] && w in depthById && depthById[w] + 1 == depth
      modifies this
      ensures Valid() && stack == old(stack)[..|old(stack)| - 1] && visiting == old(visiting) - {id}
      ensures depthById == old(depthById)[id := depth] && Extends(old(depthById), depthById)
    {
      hide IsPath, DepthMap, IsStack;
      PopKeepsStack(graph, stack);
      NewDepth(graph, depthById, id, depth);
      stack := stack[..|stack| - 1];
      visiting := visiting - {id};
      visited := visited + {id};
      depthById := depthById[id := depth];
    }
  }

  /** Depths already found stay as they are. */
  ghost predicate Extends(before: map<Id, nat>, after: map<Id, nat>) {
    forall v :: v in before ==> v in after && after[v] == before[v]
  }

  lemma NewDepth(g: Graph, d: map<Id, nat>, id: Id, depth: nat)
    requires DepthMap(g, d) && id in g && id !in d
    requires forall w :: w in g[id] ==> w in d && d[w] < depth
    requires depth == 0 || exists w :: w in g[id] && w in d && d[w] + 1 == depth
    ensures DepthMap(g, d[id := depth])
  {
    var e := d[id := depth];
    forall v | v in e
      ensures DepthAt(g, e, v)
    {
      if v != id {
        assert DepthAt(g, d, v);
        if d[v] > 0 {
          var w :| w in g[v] && w in d && d[w] + 1 == d[v];
          assert w in g[v] && w in e && e[w] + 1 == e[v];
        }
      } else if depth > 0 {
        var w :| w in g[id] && w in d && d[w] + 1 == depth;
        assert w in g[v] && w in e && e[w] + 1 == e[v];
      }
    }
  }

  lemma DepthsOfNodes(g: Graph, d: map<Id, nat>)
    requires DepthMap(g, d)
    ensures d.Keys <= g.Keys
  {
    forall v | v in d
      ensures v in g
    {
      assert DepthAt(g, d, v);
    }
  }

  lemma PushKeepsStack(g: Graph, stack: seq<Id>, id: Id)
    requires IsStack(g, stack) && CanPush(g, stack, id) && id !in stack
    ensures IsStack(g, stack + [id])
  {
    PushKeepsPath(g, stack, id);
  }

  lemma PopKeepsStack(g: Graph, stack: seq<Id>)
    requires IsStack(g, stack) && stack != []
    ensures IsStack(g, stack[..|stack| - 1]) && stack[|stack| - 1] !in stack[..|stack| - 1]
  {
    var p := stack[..|stack| - 1];
    if p != [] {
      forall i, j | 0 <= i < |p| && 0 <= j < |p| && j == i + 1
        ensures p[j] in g[p[i]]
      {
        assert stack[j] in g[stack[i]];
      }
    }
  }

  /** The loop over all tasks: a genuine cycle, or the longest-chain depth of every task. */
  method TaskDepthSearch(graph: Graph, order: seq<Id>) returns (result: Visit, depths: map<Id, nat>)
    requires Closed(graph) && forall id :: id in order <==> id in graph
    ensures result.Cycle? <==> !Acyclic(graph)
    ensures result.Cycle? ==> IsCycle(graph, result.path)
    ensures result.Depth? ==> depths.Keys == graph.Keys && DepthMap(graph, depths)
  {
    hide IsPath, DepthAt, IsStack;
    var search := new DepthSearch(graph);
    result := Depth(0);
    var i := 0;
    while i < |order|
      invariant 0 <= i <= |order|
      invariant search.Valid() && search.graph == graph && search.stack == [] && fresh(search) && result.Depth?
      invariant forall k :: 0 <= k < i ==> order[k] in search.depthById
    {
      assert order[i] in order;
      result := search.Visit(order[i]);
      if result.Cycle? {
        return result, map[];
      }
      i := i + 1;
    }
    depths := search.depthById;
    assert depths.Keys == graph.Keys by {
      forall id | id in graph
        ensures id in depths
      {
        assert id in order;
      }
      DepthsOfNodes(graph, depths);
    }
    DepthsExcludeCycles(graph, depths);
  }
}
