/** The five checks of a service graph, the first of which repairs missing back references in place. */
module DagValidation {
  import opened Graphs
  import opened Wrappers
  import opened Dags
  import IntermediateNodes

  datatype DagError =
    | DuplicateNode | MissingEndpoint | InvalidReference | EdgeMismatch | DuplicateEdge | Cycle | Disconnected

  /** Every name in a neighbour list is a node. */
  ghost predicate AllKnown(nodes: Nodes) {
    forall n {:trigger KnownLists(nodes, n)} :: n in nodes ==> KnownLists(nodes, n)
  }

  ghost predicate KnownLists(nodes: Nodes, n: Name)
    requires n in nodes
  {
    (forall c :: c in nodes[n].next ==> c in nodes) && (forall p :: p in nodes[n].prev ==> p in nodes)
  }

  /** `after` is `before` followed by new, mutually different names. */
  ghost predicate Extended(before: seq<Name>, after: seq<Name>) {
    && before <= after
    && forall i, j :: 0 <= i < j < |after| && |before| <= j ==> after[i] != after[j]
  }

  /** The names in the lists of `after` come from an edge that `before` gives from one end or the other. */
  ghost predicate GrownAt(before: Nodes, after: Nodes, n: Name)
    requires n in before && n in after
  {
    && after[n].service == before[n].service
    && Extended(before[n].next, after[n].next)
    && Extended(before[n].prev, after[n].prev)
    && (forall b :: b in after[n].next ==> b in before[n].next || (b in before && n in before[b].prev))
    && (forall b :: b in after[n].prev ==> b in before[n].prev || (b in before && n in before[b].next))
  }

  ghost predicate Grown(before: Nodes, after: Nodes) {
    && after.Keys == before.Keys
    && forall n {:trigger GrownAt(before, after, n)} :: n in before && n in after ==> GrownAt(before, after, n)
  }

  /** The first `k` children of `n` are nodes that list `n` as a parent. */
  ghost predicate ChildrenOk(nodes: Nodes, n: Name, k: nat)
    requires n in nodes
  {
    forall i :: 0 <= i < k && i < |nodes[n].next| ==> nodes[n].next[i] in nodes && n in nodes[nodes[n].next[i]].prev
  }

  ghost predicate ParentsOk(nodes: Nodes, n: Name, k: nat)
    requires n in nodes
  {
    forall i :: 0 <= i < k && i < |nodes[n].prev| ==> nodes[n].prev[i] in nodes && n in nodes[nodes[n].prev[i]].next
  }

  ghost predicate NodeOk(nodes: Nodes, n: Name)
    requires n in nodes
  {
    ChildrenOk(nodes, n, |nodes[n].next|) && ParentsOk(nodes, n, |nodes[n].prev|)
  }

  ghost predicate AllOk(nodes: Nodes, done: set<Name>) {
    forall n {:trigger NodeOk(nodes, n)} :: n in done && n in nodes ==> NodeOk(nodes, n)
  }

  ghost function WithParent(nodes: Nodes, child: Name, parent: Name): Nodes
    requires child in nodes
  {
    nodes[child := nodes[child].(prev := nodes[child].prev + [parent])]
  }

  ghost function WithChild(nodes: Nodes, parent: Name, child: Name): Nodes
    requires parent in nodes
  {
    nodes[parent := nodes[parent].(next := nodes[parent].next + [child])]
  }

  lemma ExtendOne(before: seq<Name>, after: seq<Name>, x: Name)
    requires Extended(before, after) && x !in after
    ensures Extended(before, after + [x])
  {
  }

  /** A missing parent reference was missing from the start, so adding it states an edge given elsewhere. */
  lemma GrowParent(before: Nodes, nodes: Nodes, n: Name, child: Name)
    requires Grown(before, nodes)
    requires n in nodes && child in nodes && child in nodes[n].next && n !in nodes[child].prev
    ensures Grown(before, WithParent(nodes, child, n))
  {
    var after := WithParent(nodes, child, n);
    assert GrownAt(before, nodes, n) && GrownAt(before, nodes, child);
    assert n !in before[child].prev;
    ExtendOne(before[child].prev, nodes[child].prev, n);
    forall m | m in before ensures GrownAt(before, after, m) {
      assert GrownAt(before, nodes, m);
    }
  }

  lemma GrowChild(before: Nodes, nodes: Nodes, n: Name, parent: Name)
    requires Grown(before, nodes)
    requires n in nodes && parent in nodes && parent in nodes[n].prev && n !in nodes[parent].next
    ensures Grown(before, WithChild(nodes, parent, n))
  {
    var after := WithChild(nodes, parent, n);
    assert GrownAt(before, nodes, n) && GrownAt(before, nodes, parent);
    assert n !in before[parent].next;
    ExtendOne(before[parent].next, nodes[parent].next, n);
    forall m | m in before ensures GrownAt(before, after, m) {
      assert GrownAt(before, nodes, m);
    }
  }

  /** Lengthening the parent list of `child` by a node that leads to it breaks no check already made. */
  lemma RepairParent(nodes: Nodes, child: Name, n: Name, m: Name, j: nat, k: nat)
    requires n in nodes && child in nodes && child in nodes[n].next && m in nodes
    requires ChildrenOk(nodes, m, j) && ParentsOk(nodes, m, k)
    ensures ChildrenOk(WithParent(nodes, child, n), m, j)
    ensures ParentsOk(WithParent(nodes, child, n), m, if k == |nodes[m].prev| then |WithParent(nodes, child, n)[m].prev|
      else k)
  {
    var after := WithParent(nodes, child, n);
    forall i | 0 <= i < j && i < |after[m].next|
      ensures after[m].next[i] in after && m in after[after[m].next[i]].prev
    {
      assert m in nodes[nodes[m].next[i]].prev;
    }
    forall i | 0 <= i < |after[m].prev| && (i < k || k == |nodes[m].prev|)
      ensures after[m].prev[i] in after && m in after[after[m].prev[i]].next
    {
      assert i < |nodes[m].prev| ==> after[m].prev[i] == nodes[m].prev[i];
    }
  }

  lemma RepairChild(nodes: Nodes, parent: Name, n: Name, m: Name, j: nat, k: nat)
    requires n in nodes && parent in nodes && parent in nodes[n].prev && m in nodes
    requires ChildrenOk(nodes, m, j) && ParentsOk(nodes, m, k)
    ensures ParentsOk(WithChild(nodes, parent, n), m, k)
    ensures ChildrenOk(WithChild(nodes, parent, n), m, if j == |nodes[m].next|
      then |WithChild(nodes, parent, n)[m].next| else j)
  {
    var after := WithChild(nodes, parent, n);
    forall i | 0 <= i < k && i < |after[m].prev|
      ensures after[m].prev[i] in after && m in after[after[m].prev[i]].next
    {
      assert m in nodes[nodes[m].prev[i]].next;
    }
    forall i | 0 <= i < |after[m].next| && (i < j || j == |nodes[m].next|)
      ensures after[m].next[i] in after && m in after[after[m].next[i]].prev
    {
      assert i < |nodes[m].next| ==> after[m].next[i] == nodes[m].next[i];
    }
  }

  lemma RepairParentKeeps(nodes: Nodes, child: Name, n: Name, done: set<Name>)
    requires n in nodes && child in nodes && child in nodes[n].next && AllOk(nodes, done)
    ensures AllOk(WithParent(nodes, child, n), done)
  {
    forall m | m in done && m in nodes ensures NodeOk(WithParent(nodes, child, n), m) {
      assert NodeOk(nodes, m);
      RepairParent(nodes, child, n, m, |nodes[m].next|, |nodes[m].prev|);
    }
  }

  lemma RepairChildKeeps(nodes: Nodes, parent: Name, n: Name, done: set<Name>)
    requires n in nodes && parent in nodes && parent in nodes[n].prev && AllOk(nodes, done)
    ensures AllOk(WithChild(nodes, parent, n), done)
  {
    forall m | m in done && m in nodes ensures NodeOk(WithChild(nodes, parent, n), m) {
      assert NodeOk(nodes, m);
      RepairChild(nodes, parent, n, m, |nodes[m].next|, |nodes[m].prev|);
    }
  }

  /** First pass: raises on a dangling name, and otherwise lets each edge be listed at both ends. */
  method RepairEdges(dag: DAG) returns (err: Option<DagError>)
    requires dag.Valid()
    modifies dag
    ensures dag.Valid() && dag.order == old(dag.order)
    ensures Grown(old(dag.nodes), dag.nodes)
    ensures err == if AllKnown(old(dag.nodes)) then None else Some(InvalidReference)
    ensures err == None ==> AllOk(dag.nodes, dag.nodes.Keys)
  {
    ghost var before := dag.nodes;
    for i := 0 to |dag.order|
      invariant dag.Valid() && dag.order == old(dag.order) && Grown(before, dag.nodes)
      invariant AllOk(dag.nodes, Elements(dag.order[..i]))
    {
      var n := dag.order[i];
      assert n in Elements(dag.order);
      assert dag.order[..i + 1] == dag.order[..i] + [n];
      err := RepairChildrenOf(dag, n, before, Elements(dag.order[..i]));
      if err != None {
        return;
      }
      err := RepairParentsOf(dag, n, before, Elements(dag.order[..i]));
      if err != None {
        return;
      }
    }
    assert dag.order[..|dag.order|] == dag.order;
    OkMeansKnown(before, dag.nodes);
    return None;
  }

  lemma OkMeansKnown(before: Nodes, nodes: Nodes)
    requires Grown(before, nodes) && AllOk(nodes, nodes.Keys)
    ensures AllKnown(before)
  {
    forall n | n in before ensures KnownLists(before, n) {
      assert NodeOk(nodes, n) && GrownAt(before, nodes, n);
      forall c | c in before[n].next ensures c in before {
        assert c in nodes[n].next;
      }
      forall p | p in before[n].prev ensures p in before {
        assert p in nodes[n].prev;
      }
    }
  }

  lemma DanglingChild(before: Nodes, nodes: Nodes, n: Name, c: Name)
    requires Grown(before, nodes) && n in nodes && c in nodes[n].next + nodes[n].prev && c !in nodes
    ensures !AllKnown(before)
  {
    assert GrownAt(before, nodes, n);
    assert !KnownLists(before, n);
  }

  method RepairChildrenOf(dag: DAG, n: Name, ghost before: Nodes, ghost done: set<Name>) returns (err: Option<DagError>)
    requires dag.Valid() && n in dag.nodes && Grown(before, dag.nodes) && AllOk(dag.nodes, done)
    modifies dag`nodes
    ensures dag.Valid() && n in dag.nodes && Grown(before, dag.nodes) && AllOk(dag.nodes, done)
    ensures err == None || (err == Some(InvalidReference) && !AllKnown(before))
    ensures err == None ==> ChildrenOk(dag.nodes, n, |dag.nodes[n].next|)
  {
    var children := dag.nodes[n].next;
    for i := 0 to |children|
      invariant dag.Valid() && n in dag.nodes && Grown(before, dag.nodes) && AllOk(dag.nodes, done)
      invariant dag.nodes[n].next == children && ChildrenOk(dag.nodes, n, i)
    {
      var child := children[i];
      if child !in dag.nodes {
        DanglingChild(before, dag.nodes, n, child);
        return Some(InvalidReference);
      }
      if n !in dag.nodes[child].prev {
        GrowParent(before, dag.nodes, n, child);
        RepairParentKeeps(dag.nodes, child, n, done);
        RepairParent(dag.nodes, child, n, n, i, 0);
        dag.nodes := dag.nodes[child := dag.nodes[child].(prev := dag.nodes[child].prev + [n])];
      }
    }
    return None;
  }

  method RepairParentsOf(dag: DAG, n: Name, ghost before: Nodes, ghost done: set<Name>) returns (err: Option<DagError>)
    requires dag.Valid() && n in dag.nodes && Grown(before, dag.nodes) && AllOk(dag.nodes, done)
    requires ChildrenOk(dag.nodes, n, |dag.nodes[n].next|)
    modifies dag`nodes
    ensures dag.Valid() && n in dag.nodes && Grown(before, dag.nodes)
    ensures err == None || (err == Some(InvalidReference) && !AllKnown(before))
    ensures err == None ==> AllOk(dag.nodes, done + {n})
  {
    var parents := dag.nodes[n].prev;
    for i := 0 to |parents|
      invariant dag.Valid() && n in dag.nodes && Grown(before, dag.nodes) && AllOk(dag.nodes, done)
      invariant ChildrenOk(dag.nodes, n, |dag.nodes[n].next|)
      invariant dag.nodes[n].prev == parents && ParentsOk(dag.nodes, n, i)
    {
      var parent := parents[i];
      if parent !in dag.nodes {
        DanglingChild(before, dag.nodes, n, parent);
        return Some(InvalidReference);
      }
      if n !in dag.nodes[parent].next {
        GrowChild(before, dag.nodes, n, parent);
        RepairChildKeeps(dag.nodes, parent, n, done);
        RepairChild(dag.nodes, parent, n, n, |dag.nodes[n].next|, i);
        dag.nodes := dag.nodes[parent := dag.nodes[parent].(next := dag.nodes[parent].next + [n])];
      }
    }
    assert NodeOk(dag.nodes, n);
    return None;
  }

  /** Second pass: raises when an edge is listed at one end only. */
  method VerifyEdges(dag: DAG) returns (err: Option<DagError>)
    requires dag.Valid() && AllKnown(dag.nodes)
    ensures err == if AllOk(dag.nodes, dag.nodes.Keys) then None else Some(EdgeMismatch)
  {
    for i := 0 to |dag.order|
      invariant AllOk(dag.nodes, Elements(dag.order[..i]))
    {
      var n := dag.order[i];
      assert n in Elements(dag.order) && KnownLists(dag.nodes, n);
      assert dag.order[..i + 1] == dag.order[..i] + [n];
      var node := dag.nodes[n];
      for j := 0 to |node.next|
        invariant ChildrenOk(dag.nodes, n, j)
      {
        if n !in dag.nodes[node.next[j]].prev {
          assert !NodeOk(dag.nodes, n);
          return Some(EdgeMismatch);
        }
      }
      for j := 0 to |node.prev|
        invariant ParentsOk(dag.nodes, n, j)
      {
        if n !in dag.nodes[node.prev[j]].next {
          assert !NodeOk(dag.nodes, n);
          return Some(EdgeMismatch);
        }
      }
      assert NodeOk(dag.nodes, n);
    }
    assert dag.order[..|dag.order|] == dag.order;
    return None;
  }

  /** Both passes together: the second never finds anything left to reject. */
  method CheckEdgeConsistency(dag: DAG) returns (err: Option<DagError>)
    requires dag.Valid()
    modifies dag
    ensures dag.Valid() && dag.order == old(dag.order) && Grown(old(dag.nodes), dag.nodes)
    ensures err == if AllKnown(old(dag.nodes)) then None else Some(InvalidReference)
    ensures err == None ==> Inverse(Next(dag.nodes), Prev(dag.nodes))
  {
    err := RepairEdges(dag);
    if err != None {
      return;
    }
    OkMeansInverse(dag.nodes);
    err := VerifyEdges(dag);
  }

  lemma OkMeansInverse(nodes: Nodes)
    requires AllOk(nodes, nodes.Keys)
    ensures Inverse(Next(nodes), Prev(nodes)) && AllKnown(nodes)
  {
    var g, h := Next(nodes), Prev(nodes);
    forall a, b ensures Edge(g, a, b) <==> Edge(h, b, a) {
      if Edge(g, a, b) {
        assert NodeOk(nodes, a);
      }
      if Edge(h, b, a) {
        assert NodeOk(nodes, b);
      }
    }
    forall n | n in nodes ensures KnownLists(nodes, n) {
      assert NodeOk(nodes, n);
    }
  }

  ghost predicate SuccessorsDistinct(nodes: Nodes) {
    forall n :: n in nodes ==> Distinct(nodes[n].next)
  }

  /** Raises when a successor list names a node twice. */
  method CheckDuplicateEdges(dag: DAG) returns (err: Option<DagError>)
    requires dag.Valid()
    ensures err == if SuccessorsDistinct(dag.nodes) then None else Some(DuplicateEdge)
  {
    var edges: set<(Name, Name)> := {};
    for i := 0 to |dag.order|
      invariant forall e :: e in edges ==> e.0 in dag.order[..i]
      invariant forall j :: 0 <= j < i ==> dag.order[j] in dag.nodes && Distinct(dag.nodes[dag.order[j]].next)
    {
      var n := dag.order[i];
      assert n in Elements(dag.order);
      assert n !in dag.order[..i];
      assert dag.order[..i + 1] == dag.order[..i] + [n];
      var children := dag.nodes[n].next;
      for j := 0 to |children|
        invariant forall e :: e in edges ==> e.0 in dag.order[..i] || e.0 == n
        invariant forall c :: (n, c) in edges <==> c in children[..j]
        invariant Distinct(children[..j])
      {
        assert children[..j + 1] == children[..j] + [children[j]];
        if (n, children[j]) in edges {
          assert exists k :: 0 <= k < j && children[k] == children[j];
          return Some(DuplicateEdge);
        }
        edges := edges + {(n, children[j])};
      }
      assert children[..|children|] == children;
    }
    forall n | n in dag.nodes ensures Distinct(dag.nodes[n].next) {
      assert n in Elements(dag.order);
    }
    return None;
  }

  // ----- cycles -----

  /** Nodes whose search is over: their successors are over too, and none lies on a cycle. */
  ghost predicate Finished(g: Graph, done: set<Name>) {
    && (forall u, v {:trigger Edge(g, u, v)} :: u in done && Edge(g, u, v) ==> v in done)
    && (forall u {:trigger StrictReach(g, u, u)} :: u in done ==> !StrictReach(g, u, u))
  }

  ghost predicate AllReach(g: Graph, stack: set<Name>, n: Name) {
    forall s {:trigger StrictReach(g, s, n)} :: s in stack ==> StrictReach(g, s, n)
  }

  /** Depth-first search: true means a cycle, false means everything below `n` is finished. */
  method Dfs(g: Graph, n: Name, visited0: set<Name>, stack0: set<Name>)
    returns (found: bool, visited: set<Name>, stack: set<Name>)
    requires Closed(g) && n in g && visited0 <= g.Keys && stack0 <= visited0
    requires Finished(g, visited0 - stack0) && AllReach(g, stack0, n)
    ensures found ==> !Acyclic(g)
    ensures !found ==>
      stack == stack0 && visited0 + {n} <= visited <= g.Keys && n !in stack && Finished(g, visited - stack)
    decreases g.Keys - visited0
  {
    visited, stack := visited0, stack0;
    if n in stack {
      assert StrictReach(g, n, n);
      return true, visited, stack;
    }
    if n in visited {
      return false, visited, stack;
    }
    visited := visited + {n};
    stack := stack + {n};
    assert visited - stack == visited0 - stack0;
    for i := 0 to |g[n]|
      invariant stack == stack0 + {n} && visited0 + {n} <= visited <= g.Keys
      invariant Finished(g, visited - stack)
      invariant forall j :: 0 <= j < i ==> g[n][j] in visited - stack
    {
      var child := g[n][i];
      assert Edge(g, n, child);
      StackReachesChild(g, stack0, n, child);
      found, visited, stack := Dfs(g, child, visited, stack);
      if found {
        return;
      }
    }
    NodeFinished(g, visited - stack, n);
    stack := stack - {n};
    assert stack == stack0 && visited - stack == (visited - (stack0 + {n})) + {n};
    return false, visited, stack;
  }

  lemma StackReachesChild(g: Graph, stack: set<Name>, n: Name, child: Name)
    requires Closed(g) && AllReach(g, stack, n) && Edge(g, n, child)
    ensures AllReach(g, stack + {n}, child)
  {
    ReachEdge(g, n, child);
    forall s | s in stack + {n} ensures StrictReach(g, s, child) {
      if s != n {
        StrictIsReach(g, s, n);
        ReachStep(g, s, n, child);
      }
    }
  }

  lemma NodeFinished(g: Graph, done: set<Name>, n: Name)
    requires Closed(g) && Finished(g, done) && n in g && n !in done && forall j :: 0 <= j < |g[n]| ==> g[n][j] in done
    ensures Finished(g, done + {n})
  {
    if StrictReach(g, n, n) {
      var c :| Edge(g, n, c) && Reach(g, c, n);
      ReachStaysIn(g, done, c, n);
    }
  }

  /** Raises exactly on graphs with a directed cycle. */
  method CheckCycles(dag: DAG) returns (err: Option<DagError>)
    requires dag.Valid() && Closed(Next(dag.nodes))
    ensures err == if Acyclic(Next(dag.nodes)) then None else Some(Cycle)
  {
    var g := Next(dag.nodes);
    var visited: set<Name>, stack: set<Name> := {}, {};
    for i := 0 to |dag.order|
      invariant stack == {} && visited <= g.Keys && Finished(g, visited - stack)
      invariant forall j :: 0 <= j < i ==> dag.order[j] in visited
    {
      assert dag.order[i] in Elements(dag.order);
      if dag.order[i] !in visited {
        var found;
        found, visited, stack := Dfs(g, dag.order[i], visited, stack);
        if found {
          return Some(Cycle);
        }
      }
    }
    forall n | n in g ensures !StrictReach(g, n, n) {
      assert n in Elements(dag.order) && n in visited - stack;
    }
    return None;
  }

  // ----- connectivity -----

  /** Neighbours on both sides. */
  ghost function Both(nodes: Nodes): Graph {
    map n | n in nodes :: nodes[n].next + nodes[n].prev
  }

  /** Raises when some node is not connected, in either direction, to the first one. */
  method CheckConnectivity(dag: DAG) returns (err: Option<DagError>)
    requires dag.Valid() && Closed(Both(dag.nodes))
    ensures dag.order != [] ==>
      err == if Reachable(Both(dag.nodes), dag.order[0]) == dag.nodes.Keys then None else Some(Disconnected)
    ensures dag.order == [] ==> err == None
  {
    if dag.order == [] {
      return None;
    }
    var g := Both(dag.nodes);
    var start := dag.order[0];
    assert start in Elements(dag.order);
    ReachSelf(g, start);
    var visited := {start};
    var stack := [start];
    while stack != []
      invariant start in visited && visited <= Reachable(g, start)
      invariant forall u :: u in stack ==> u in visited
      invariant forall u, v {:trigger Edge(g, u, v)} :: u in visited && u !in stack && Edge(g, u, v) ==> v in visited
      decreases g.Keys - visited, |stack|
    {
      var current := stack[|stack| - 1];
      ghost var before, seen := stack, visited;
      assert current in visited;
      stack := stack[..|stack| - 1];
      ghost var rest := stack;
      var neighbors := dag.nodes[current].next + dag.nodes[current].prev;
      for i := 0 to |neighbors|
        invariant start in visited && seen <= visited <= Reachable(g, start)
        invariant visited == seen ==> stack == rest
        invariant forall u :: u in stack ==> u in visited
        invariant forall u :: u in rest ==> u in stack
        invariant forall u :: u in visited && u !in seen ==> u in stack
        invariant forall j :: 0 <= j < i ==> neighbors[j] in visited
      {
        if neighbors[i] !in visited {
          assert Edge(g, current, neighbors[i]);
          ReachStep(g, start, current, neighbors[i]);
          visited := visited + {neighbors[i]};
          stack := stack + [neighbors[i]];
        }
      }
      forall u, v | u in visited && u !in stack && Edge(g, u, v) ensures v in visited {
        assert u in before ==> u == current || u in rest;
      }
    }
    IntermediateNodes.ClosedIsReachable(g, start, visited);
    SubsetSize(visited, dag.nodes.Keys);
    SizeOfKeys(dag.order, dag.nodes.Keys);
    if |visited| != |dag.order| {
      return Some(Disconnected);
    }
    return None;
  }

  lemma {:induction false} SizeOfKeys(s: seq<Name>, keys: set<Name>)
    requires Distinct(s) && Elements(s) == keys
    ensures |keys| == |s|
  {
    if s != [] {
      var x := s[|s| - 1];
      assert x in Elements(s);
      forall y | y in keys - {x} ensures y in Elements(s[..|s| - 1]) {
        assert y in Elements(s);
      }
      assert Elements(s[..|s| - 1]) == keys - {x};
      SizeOfKeys(s[..|s| - 1], keys - {x});
    }
  }
}
