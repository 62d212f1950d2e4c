/** Nodes lying between two nodes, by a forward and a reverse breadth-first search. */
module IntermediateNodes {
  import opened Graphs
  import opened PathWeights
  import opened Wrappers

  /** What lies on some path from `src` to `dest`, the ends excluded. */
  ghost function Between(g: Graph, src: Name, dest: Name): set<Name> {
    set m | m in g && Reach(g, src, m) && Reach(g, m, dest) && m != src && m != dest
  }

  /** A set holding `n`, closed under edges and sound, is exactly what `n` reaches. */
  lemma ClosedIsReachable(g: Graph, n: Name, visited: set<Name>)
    requires Closed(g) && n in visited && visited <= Reachable(g, n)
    requires forall u, v :: u in visited && Edge(g, u, v) ==> v in visited
    ensures visited == Reachable(g, n)
  {
    forall m | m in Reachable(g, n) ensures m in visited {
      ReachStaysIn(g, visited, n, m);
    }
  }

  /** Breadth-first search along the lists of `g`: successor lists going forward, predecessor lists going back. */
  method Search(g: Graph, n: Name) returns (visited: set<Name>)
    requires Closed(g) && n in g
    ensures visited == Reachable(g, n)
  {
    ReachSelf(g, n);
    var queue := [n];
    visited := {n};
    while queue != []
      invariant n in visited && visited <= Reachable(g, n)
      invariant forall u :: u in queue ==> u in visited
      invariant forall u, v :: u in visited && u !in queue && Edge(g, u, v) ==> v in visited
      decreases g.Keys - visited, |queue|
    {
      var current := queue[0];
      ghost var before := queue;
      assert current in visited;
      queue := queue[1..];
      ghost var rest, seen := queue, visited;
      for i := 0 to |g[current]|
        invariant n in visited && seen <= visited <= Reachable(g, n)
        invariant visited == seen ==> queue == rest
        invariant forall u :: u in queue ==> u in visited
        invariant forall u :: u in rest ==> u in queue
        invariant forall u :: u in visited && u !in seen ==> u in queue
        invariant forall j :: 0 <= j < i ==> g[current][j] in visited
      {
        var child := g[current][i];
        assert Edge(g, current, child);
        if child !in visited {
          ReachStep(g, n, current, child);
          visited := visited + {child};
          queue := queue + [child];
        }
      }
      forall u, v | u in visited && u !in queue && Edge(g, u, v) ensures v in visited {
        assert u in before ==> u == current || u in rest;
      }
    }
    ClosedIsReachable(g, n, visited);
  }

  method GetIntermediateNodes(next: Graph, prev: Graph, src: Name, dest: Name) returns (r: Result<set<Name>, PathError>)
    requires Inverse(next, prev)
    ensures src !in next || dest !in next ==> r == Failure(UnknownNode)
    ensures src in next && dest in next ==> r == Success(Between(next, src, dest))
  {
    if src !in next || dest !in next {
      return Failure(UnknownNode);
    }
    InverseClosed(next, prev);
    var forward := Search(next, src);
    if dest !in forward {
      forall m | m in Between(next, src, dest) ensures false {
        ReachTrans(next, src, m, dest);
      }
      assert Between(next, src, dest) == {};
      return Success({});
    }
    var reverse := Search(prev, dest);
    forall m | m in next ensures Reach(prev, dest, m) <==> Reach(next, m, dest) {
      InverseReach(next, prev, m, dest);
    }
    assert (forward * reverse) - {src, dest} == Between(next, src, dest);
    return Success((forward * reverse) - {src, dest});
  }
}
