/** From a deployment dictionary to a normalised service graph. */
module DagExtraction {
  import opened Graphs
  import opened Wrappers
  import opened Dags
  import opened DagValidation

  /** One item of the dictionary: its key, and the node data under it. */
  datatype Item = Item(key: Name, service: Service, prev: seq<Name>, next: seq<Name>)

  /** Negative durations are stored as zero. */
  function Clamp(s: Service): Service {
    s.(transmitTime := if s.transmitTime < 0.0 then 0.0 else s.transmitTime,
       executeTime := if s.executeTime < 0.0 then 0.0 else s.executeTime)
  }

  function NodeOf(item: Item): Node {
    Node(Clamp(item.service), item.prev, item.next)
  }

  /** Name, device and content are those read, and so is each time that is not negative; the others are zero. */
  ghost predicate KeptService(read: Service, kept: Service) {
    && kept.name == read.name && kept.device == read.device && kept.content == read.content
    && (if read.transmitTime < 0.0 then kept.transmitTime == 0.0 else kept.transmitTime == read.transmitTime)
    && (if read.executeTime < 0.0 then kept.executeTime == 0.0 else kept.executeTime == read.executeTime)
  }

  /** The service of every item is kept under its name. */
  ghost predicate KeepsServices(items: seq<Item>, nodes: Nodes) {
    forall i :: 0 <= i < |items| ==>
      items[i].service.name in nodes && KeptService(items[i].service, nodes[items[i].service.name].service)
  }

  /** The nodes are the items in order, each under its service's name with the lists it was read with. */
  ghost predicate Reads(items: seq<Item>, order: seq<Name>, nodes: Nodes) {
    && |order| == |items| && KeepsServices(items, nodes)
    && forall i :: 0 <= i < |items| ==>
      && order[i] == items[i].service.name
      && nodes[order[i]].prev == items[i].prev && nodes[order[i]].next == items[i].next
  }

  ghost predicate DistinctNames(items: seq<Item>) {
    forall i, j :: 0 <= i < j < |items| ==> items[i].service.name != items[j].service.name
  }

  /** The nodes a dictionary with distinct service names stands for. */
  ghost function NodesOf(items: seq<Item>): Nodes {
    if items == [] then map[] else
      var last := items[|items| - 1];
      NodesOf(items[..|items| - 1])[last.service.name := NodeOf(last)]
  }

  ghost predicate HasKey(items: seq<Item>, key: Name) {
    exists i :: 0 <= i < |items| && items[i].key == key
  }

  /** What every validated graph is. */
  ghost predicate Validated(nodes: Nodes) {
    && START in nodes && END in nodes
    && Inverse(Next(nodes), Prev(nodes))
    && Acyclic(Next(nodes))
    && SuccessorsDistinct(nodes)
  }

  /** What a graph with added ends is: validated, with one source, one sink, and everything between them. */
  ghost predicate Normalised(nodes: Nodes) {
    && Validated(nodes)
    && (forall n :: n in nodes ==> (nodes[n].prev == [] <==> n == START) && (nodes[n].next == [] <==> n == END))
    && forall n :: n in nodes ==> Reach(Next(nodes), START, n) && Reach(Next(nodes), n, END)
  }

  ghost predicate NonNegativeTimes(nodes: Nodes) {
    forall n :: n in nodes ==> nodes[n].service.transmitTime >= 0.0 && nodes[n].service.executeTime >= 0.0
  }

  /** The edge from `a` to `b` of the graph meant by `nodes`: listed at either end, or added at one of the two ends. */
  ghost predicate MeantEdge(nodes: Nodes, a: Name, b: Name) {
    || (a in nodes && b in nodes[a].next)
    || (b in nodes && a in nodes[b].prev)
    || (a == START && b in nodes && !HasParent(nodes, b))
    || (b == END && a in nodes && nodes[a].next == [])
    || (a == START && b == END && forall n :: n in nodes ==> HasParent(nodes, n))
  }

  /** The edges are the meant ones, and a predecessor list repeats a name only if the dictionary makes it. */
  ghost predicate AsMeant(o0: Nodes, nodes: Nodes) {
    && nodes.Keys == o0.Keys + {START, END}
    && (forall a, b {:trigger Edge(Next(nodes), a, b)} {:trigger MeantEdge(o0, a, b)} :: Edge(Next(nodes), a, b) <==>
         MeantEdge(o0, a, b))
    && (forall n {:trigger nodes[n]} :: n in o0 ==>
      (Distinct(nodes[n].prev) <==> Distinct(o0[n].prev) && (HasParent(o0, n) || START !in o0[n].prev)))
    && Distinct(nodes[END].prev)
  }

  ghost predicate Rankable(nodes: Nodes) {
    exists rank: map<Name, int> :: rank.Keys == nodes.Keys + {START, END} && Ranks(nodes, rank)
  }

  ghost predicate Ranks(nodes: Nodes, rank: map<Name, int>)
    requires rank.Keys == nodes.Keys + {START, END}
  {
    forall a, b :: a in rank && b in rank && MeantEdge(nodes, a, b) ==> rank[b] < rank[a]
  }

  ghost predicate KnownWithEnds(nodes: Nodes) {
    forall n :: n in nodes ==>
      && (forall c :: c in nodes[n].next ==> c in nodes.Keys + {START, END})
      && (forall p :: p in nodes[n].prev ==> p in nodes.Keys + {START, END})
  }

  /** Exactly when a dictionary without the reserved keys is accepted. */
  ghost predicate Acceptable(items: seq<Item>) {
    DistinctNames(items) && AcceptableNodes(NodesOf(items))
  }

  /** What is wrong with a dictionary without the reserved keys, in the order in which it is noticed. */
  ghost function FaultOf(items: seq<Item>): Option<DagError> {
    var nodes := NodesOf(items);
    if !DistinctNames(items) || START in nodes || END in nodes then Some(DuplicateNode)
    else if !KnownWithEnds(nodes) then Some(InvalidReference)
    else if !SuccessorsDistinct(nodes) then Some(DuplicateEdge)
    else if !Rankable(nodes) then Some(Cycle)
    else None
  }

  ghost predicate AcceptableNodes(nodes: Nodes) {
    && START !in nodes && END !in nodes
    && KnownWithEnds(nodes)
    && SuccessorsDistinct(nodes)
    && Rankable(nodes)
  }

  // ----- one source above everything -----

  /** If only `s` may lack predecessors, `s` lacks them and lies above every node. */
  lemma SourceReachesAll(g: Graph, h: Graph, s: Name)
    requires Inverse(g, h) && Acyclic(g) && s in g && forall n :: n in g && n != s ==> h[n] != []
    ensures h[s] == [] && forall n :: n in g ==> Reach(g, s, n)
  {
    InverseClosed(g, h);
    InverseAcyclic(g, h);
    forall n | n in g ensures Reach(g, s, n) {
      ClimbToSource(g, h, s, n);
    }
    if h[s] != [] {
      assert Edge(h, s, h[s][0]);
      assert Edge(g, h[s][0], s);
      ReachStep(g, s, h[s][0], s);
    }
  }

  lemma {:induction false} ClimbToSource(g: Graph, h: Graph, s: Name, n: Name)
    requires Inverse(g, h) && Closed(g) && Closed(h) && Acyclic(h) && s in g && n in g
    requires forall m :: m in g && m != s ==> h[m] != []
    ensures Reach(g, s, n)
    decreases Rank(h, n)
  {
    if n == s {
      ReachSelf(g, s);
    } else {
      var p := h[n][0];
      assert Edge(h, n, p);
      RankDrops(h, n, p);
      ClimbToSource(g, h, s, p);
      ReachStep(g, s, p, n);
    }
  }

  lemma SubgraphReach(g: Graph, h: Graph, a: Name, b: Name)
    requires g.Keys <= h.Keys && Reach(g, a, b) && forall u, v :: Edge(g, u, v) ==> Edge(h, u, v)
    ensures Reach(h, a, b)
  {
    var p :| PathFromTo(g, p, a, b);
    forall i | 0 <= i < |p| - 1 ensures EdgeAt(h, p, i) {
      assert EdgeAt(g, p, i);
    }
    assert PathFromTo(h, p, a, b);
  }

  /** A graph with one source above everything is connected from any node. */
  lemma NormalisedIsConnected(nodes: Nodes, n: Name)
    requires Normalised(nodes) && n in nodes
    ensures Closed(Both(nodes)) && Reachable(Both(nodes), n) == nodes.Keys
  {
    var g, h, u := Next(nodes), Prev(nodes), Both(nodes);
    InverseClosed(g, h);
    forall m | m in nodes ensures Reach(u, n, m) {
      InverseReach(g, h, START, n);
      SubgraphReach(h, u, n, START);
      SubgraphReach(g, u, START, m);
      ReachTrans(u, n, START, m);
    }
    forall a, b | a in u && b in u[a] ensures b in u {
      assert Edge(g, a, b) || Edge(h, a, b);
    }
  }

  // ----- what the steps add up to -----

  /** After both ends are added and the lists repaired, the edges are exactly the meant ones. */
  lemma RepairedEdges(o0: Nodes, o1: Nodes, o2: Nodes, o3: Nodes, s: Service, e: Service, a: Name, b: Name)
    requires s.name == START && e.name == END && StartAdded(o0, s, o1) && EndAdded(o1, e, o2)
    requires Grown(o2, o3) && Inverse(Next(o3), Prev(o3)) && KnownWithEnds(o0)
    ensures Edge(Next(o3), a, b) <==> MeantEdge(o0, a, b)
  {
    AddedEdges(o0, o1, o2, s, e, a, b);
    if a in o3 && b in o3 {
      assert GrownAt(o2, o3, a) && GrownAt(o2, o3, b);
    } else {
      InverseClosed(Next(o3), Prev(o3));
    }
    assert Edge(Next(o3), a, b) <==> Edge(Prev(o3), b, a);
  }

  /** The lists of the graph once both ends are added. */
  ghost predicate ListsWithEnds(o0: Nodes, o2: Nodes, kids: seq<Name>, tails: seq<Name>) {
    && START !in o0 && END !in o0 && o2.Keys == o0.Keys + {START, END}
    && AreParentless(o0, kids) && Distinct(tails)
    && (forall n {:trigger n in tails} :: n in tails <==> (n in o0 && o0[n].next == []) || (n == START && kids == []))
    && (forall n {:trigger o2[n]} :: n in o0 ==>
      && o2[n].next == (if o0[n].next == [] then [END] else o0[n].next)
      && o2[n].prev == (if HasParent(o0, n) then o0[n].prev else o0[n].prev + [START]))
    && o2[START].next == (if kids == [] then [END] else kids) && o2[START].prev == []
    && o2[END].next == [] && o2[END].prev == tails
  }

  lemma AddedLists(o0: Nodes, o1: Nodes, o2: Nodes, s: Service, e: Service) returns (kids: seq<Name>, tails: seq<Name>)
    requires s.name == START && e.name == END && StartAdded(o0, s, o1) && EndAdded(o1, e, o2)
    ensures ListsWithEnds(o0, o2, kids, tails)
  {
    kids :| AreParentless(o0, kids) && o1[START] == Node(s, [], kids);
    tails :| AreChildless(o1, tails) && o2[END] == Node(e, tails, []);
    assert o2.Keys == o0.Keys + {START, END};
    assert START in o1;
  }

  lemma AddedEdges(o0: Nodes, o1: Nodes, o2: Nodes, s: Service, e: Service, a: Name, b: Name)
    requires s.name == START && e.name == END && StartAdded(o0, s, o1) && EndAdded(o1, e, o2)
    requires KnownWithEnds(o0)
    ensures a in o2 && b in o2 && (b in o2[a].next || a in o2[b].prev) <==> MeantEdge(o0, a, b)
  {
    var kids, tails := AddedLists(o0, o1, o2, s, e);
    if MeantEdge(o0, a, b) {
      MeantWithin(o0, a, b);
    }
    if a in o2 && b in o2 {
      NoKids(o0, kids);
      ListedAtSource(o0, o2, kids, tails, a, b);
      ListedAtTarget(o0, o2, kids, tails, a, b);
    }
  }

  lemma NoKids(o0: Nodes, kids: seq<Name>)
    requires AreParentless(o0, kids)
    ensures kids == [] <==> forall n :: n in o0 ==> HasParent(o0, n)
  {
    if kids != [] {
      assert kids[0] in kids;
    }
  }

  /** What a successor list holds once both ends are added. */
  lemma ListedAtSource(o0: Nodes, o2: Nodes, kids: seq<Name>, tails: seq<Name>, a: Name, b: Name)
    requires ListsWithEnds(o0, o2, kids, tails) && a in o2
    ensures b in o2[a].next <==>
      || (a in o0 && (b in o0[a].next || (b == END && o0[a].next == [])))
      || (a == START && (b in kids || (b == END && kids == [])))
  {
  }

  /** What a predecessor list holds once both ends are added. */
  lemma ListedAtTarget(o0: Nodes, o2: Nodes, kids: seq<Name>, tails: seq<Name>, a: Name, b: Name)
    requires ListsWithEnds(o0, o2, kids, tails) && b in o2
    ensures a in o2[b].prev <==>
      || (b in o0 && (a in o0[b].prev || (a == START && !HasParent(o0, b))))
      || (b == END && ((a in o0 && o0[a].next == []) || (a == START && kids == [])))
  {
    assert b == END ==> (a in o2[b].prev <==> a in tails);
  }

  lemma MeantWithin(o0: Nodes, a: Name, b: Name)
    requires KnownWithEnds(o0) && MeantEdge(o0, a, b)
    ensures a in o0.Keys + {START, END} && b in o0.Keys + {START, END}
  {
  }

  lemma KnownAfterEnds(o0: Nodes, o1: Nodes, o2: Nodes, s: Service, e: Service)
    requires s.name == START && e.name == END && StartAdded(o0, s, o1) && EndAdded(o1, e, o2)
    ensures AllKnown(o2) <==> KnownWithEnds(o0)
  {
    var kids, tails := AddedLists(o0, o1, o2, s, e);
    if AllKnown(o2) {
      forall n | n in o0
        ensures (forall c :: c in o0[n].next ==> c in o2.Keys) && (forall p :: p in o0[n].prev ==> p in o2.Keys)
      {
        assert KnownLists(o2, n);
        assert o2[n].next == [END] || o2[n].next == o0[n].next;
        assert o0[n].prev <= o2[n].prev;
      }
    }
    if KnownWithEnds(o0) {
      forall n | n in o2 ensures KnownLists(o2, n) {
        KnownListsAfterEnds(o0, o2, kids, tails, n);
      }
    }
  }

  lemma DistinctAfterEnds(o0: Nodes, o1: Nodes, o2: Nodes, s: Service, e: Service)
    requires s.name == START && e.name == END && StartAdded(o0, s, o1) && EndAdded(o1, e, o2)
    ensures SuccessorsDistinct(o2) <==> SuccessorsDistinct(o0)
  {
    var kids, tails := AddedLists(o0, o1, o2, s, e);
    EndsDistinct(o0, o2, kids, tails);
    forall n | n in o0 ensures Distinct(o2[n].next) <==> Distinct(o0[n].next) {
      NodeDistinct(o0, o2, kids, tails, n);
    }
  }

  lemma NodeDistinct(o0: Nodes, o2: Nodes, kids: seq<Name>, tails: seq<Name>, n: Name)
    requires ListsWithEnds(o0, o2, kids, tails) && n in o0
    ensures Distinct(o2[n].next) <==> Distinct(o0[n].next)
  {
  }

  lemma EndsDistinct(o0: Nodes, o2: Nodes, kids: seq<Name>, tails: seq<Name>)
    requires ListsWithEnds(o0, o2, kids, tails)
    ensures Distinct(o2[START].next) && Distinct(o2[END].next) && o2.Keys == o0.Keys + {START, END}
  {
  }

  lemma KnownListsAfterEnds(o0: Nodes, o2: Nodes, kids: seq<Name>, tails: seq<Name>, n: Name)
    requires ListsWithEnds(o0, o2, kids, tails) && KnownWithEnds(o0) && n in o2
    ensures KnownLists(o2, n)
  {
    if n in o0 {
      assert o2[n].next == [END] || o2[n].next == o0[n].next;
    }
  }

  lemma GrownKeepsDistinct(o2: Nodes, o3: Nodes)
    requires Grown(o2, o3)
    ensures SuccessorsDistinct(o3) <==> SuccessorsDistinct(o2)
    ensures forall n :: n in o3 ==> (Distinct(o3[n].prev) <==> Distinct(o2[n].prev))
  {
    forall n | n in o2
      ensures Distinct(o3[n].next) <==> Distinct(o2[n].next)
      ensures Distinct(o3[n].prev) <==> Distinct(o2[n].prev)
    {
      assert GrownAt(o2, o3, n);
      ExtendedDistinct(o2[n].next, o3[n].next);
      ExtendedDistinct(o2[n].prev, o3[n].prev);
    }
  }

  lemma ExtendedDistinct(before: seq<Name>, after: seq<Name>)
    requires Extended(before, after)
    ensures Distinct(before) <==> Distinct(after)
  {
    if Distinct(after) {
      assert before == after[..|before|];
    }
  }

  /** Acyclicity of the repaired graph can be read off the dictionary. */
  lemma AcyclicMeansRankable(o0: Nodes, g: Graph)
    requires g.Keys == o0.Keys + {START, END} && Closed(g)
    requires forall a, b :: Edge(g, a, b) <==> MeantEdge(o0, a, b)
    ensures Acyclic(g) <==> Rankable(o0)
  {
    if Acyclic(g) {
      var rank: map<Name, int> := map n | n in g :: Rank(g, n);
      forall a, b | a in rank && b in rank && MeantEdge(o0, a, b) ensures rank[b] < rank[a] {
        assert Edge(g, a, b);
        RankDrops(g, a, b);
      }
      assert Ranks(o0, rank);
    }
    if Rankable(o0) {
      var rank: map<Name, int> :| rank.Keys == o0.Keys + {START, END} && Ranks(o0, rank);
      RankedIsAcyclic(g, rank);
    }
  }

  /** Every node but the ends has neighbours on both sides, so one source and one sink remain. */
  lemma EndsMakeNormalised(o0: Nodes, nodes: Nodes)
    requires nodes.Keys == o0.Keys + {START, END} && Validated(nodes) && START !in o0 && END !in o0
    requires KnownWithEnds(o0)
    requires forall a, b :: Edge(Next(nodes), a, b) <==> MeantEdge(o0, a, b)
    ensures Normalised(nodes)
  {
    var g, h := Next(nodes), Prev(nodes);
    InverseClosed(g, h);
    InverseAcyclic(g, h);
    forall n | n in h && n != END ensures g[n] != [] {
      var c := SomeSuccessor(o0, n);
      assert Edge(g, n, c);
    }
    SourceReachesAll(h, g, END);
    forall n | n in nodes ensures Reach(g, n, END) {
      InverseReach(g, h, n, END);
    }
    ReachSplit(g, START, END);
    forall n | n in g && n != START ensures h[n] != [] {
      var p: Name;
      if n == END {
        p :| Reach(g, START, p) && Edge(g, p, n);
      } else {
        p := SomePredecessor(o0, n);
      }
      assert Edge(g, p, n);
      assert Edge(h, n, p);
    }
    SourceReachesAll(g, h, START);
  }

  lemma SomePredecessor(o0: Nodes, n: Name) returns (p: Name)
    requires n in o0
    ensures MeantEdge(o0, p, n)
  {
    if HasParent(o0, n) {
      p :| p in o0 && n in o0[p].next;
    } else {
      p := START;
    }
  }

  lemma SomeSuccessor(o0: Nodes, n: Name) returns (c: Name)
    requires n in o0 || n == START
    ensures MeantEdge(o0, n, c)
  {
    if n in o0 {
      c := if o0[n].next == [] then END else o0[n].next[0];
    } else if forall m :: m in o0 ==> HasParent(o0, m) {
      c := END;
    } else {
      c :| c in o0 && !HasParent(o0, c);
    }
  }

  // ----- the operations -----

  /** Builds the graph item by item; a repeated service name raises. */
  method FromDict(items: seq<Item>) returns (r: Result<DAG, DagError>)
    ensures r == Failure(DuplicateNode) <==> !DistinctNames(items)
    ensures r.Failure? ==> r == Failure(DuplicateNode)
    ensures r.Success? ==> fresh(r.value) && r.value.Valid() && r.value.nodes == NodesOf(items)
    ensures r.Success? ==> Reads(items, r.value.order, r.value.nodes)
  {
    var dag := new DAG();
    for i := 0 to |items|
      invariant fresh(dag) && dag.Valid() && dag.nodes == NodesOf(items[..i])
      invariant |dag.order| == i && forall j :: 0 <= j < i ==> dag.order[j] == items[j].service.name
      invariant DistinctNames(items[..i]) && forall n :: n in dag.nodes <==>
        exists j :: 0 <= j < i && items[j].service.name == n
    {
      assert items[..i + 1][..i] == items[..i];
      var ok := dag.AddNode(NodeOf(items[i]));
      if !ok {
        assert exists j :: 0 <= j < i && items[j].service.name == items[i].service.name;
        return Failure(DuplicateNode);
      }
    }
    assert items[..|items|] == items;
    ItemsRead(items);
    return Success(dag);
  }

  lemma {:induction false} NodesOfAt(items: seq<Item>, i: nat)
    requires DistinctNames(items) && i < |items|
    ensures items[i].service.name in NodesOf(items) && NodesOf(items)[items[i].service.name] == NodeOf(items[i])
    decreases |items|
  {
    if i < |items| - 1 {
      NodesOfAt(items[..|items| - 1], i);
    }
  }

  lemma ItemsRead(items: seq<Item>)
    requires DistinctNames(items)
    ensures forall i :: 0 <= i < |items| ==> items[i].service.name in NodesOf(items)
    ensures forall i :: 0 <= i < |items| ==>
      var node := NodesOf(items)[items[i].service.name];
      KeptService(items[i].service, node.service) && node.prev == items[i].prev && node.next == items[i].next
  {
    forall i | 0 <= i < |items|
      ensures items[i].service.name in NodesOf(items) && NodesOf(items)[items[i].service.name] == NodeOf(items[i])
    {
      NodesOfAt(items, i);
    }
  }

  /** The validator never reports a one-sided edge, nor a repeated node. */
  ghost predicate PossibleVerdict(err: Option<DagError>) {
    || err == None || err == Some(MissingEndpoint) || err == Some(InvalidReference)
    || err == Some(DuplicateEdge) || err == Some(Cycle) || err == Some(Disconnected)
  }

  /** The five checks in their order. */
  method ValidateDag(dag: DAG) returns (err: Option<DagError>)
    requires dag.Valid()
    modifies dag
    ensures dag.Valid() && dag.order == old(dag.order) && Grown(old(dag.nodes), dag.nodes)
    ensures START !in old(dag.nodes) || END !in old(dag.nodes) <==> err == Some(MissingEndpoint)
    ensures err != Some(MissingEndpoint) && !AllKnown(old(dag.nodes)) <==> err == Some(InvalidReference)
    ensures err != Some(MissingEndpoint) && err != Some(InvalidReference) ==>
      Inverse(Next(dag.nodes), Prev(dag.nodes)) && Closed(Both(dag.nodes))
    ensures err == Some(DuplicateEdge) ==> !SuccessorsDistinct(dag.nodes)
    ensures err == Some(Cycle) ==> SuccessorsDistinct(dag.nodes) && !Acyclic(Next(dag.nodes))
    ensures err == Some(Disconnected) ==>
      && Validated(dag.nodes) && dag.order != []
      && Reachable(Both(dag.nodes), dag.order[0]) != dag.nodes.Keys
    ensures err == None ==> Validated(dag.nodes)
    ensures PossibleVerdict(err)
  {
    if START !in dag.nodes || END !in dag.nodes {
      SameIsGrown(dag.nodes);
      return Some(MissingEndpoint);
    }
    err := CheckEdgeConsistency(dag);
    if err != None {
      return;
    }
    BothClosed(dag.nodes);
    err := CheckDuplicateEdges(dag);
    if err != None {
      return;
    }
    err := CheckCycles(dag);
    if err != None {
      return;
    }
    err := CheckConnectivity(dag);
    assert START in Elements(dag.order);
  }

  lemma SameIsGrown(nodes: Nodes)
    ensures Grown(nodes, nodes)
  {
    forall n | n in nodes ensures GrownAt(nodes, nodes, n) {
    }
  }

  lemma BothClosed(nodes: Nodes)
    requires Inverse(Next(nodes), Prev(nodes))
    ensures Closed(Both(nodes)) && Closed(Next(nodes))
  {
    InverseClosed(Next(nodes), Prev(nodes));
    forall a, b | a in Both(nodes) && b in Both(nodes)[a] ensures b in Both(nodes) {
      assert Edge(Next(nodes), a, b) || Edge(Prev(nodes), a, b);
    }
  }

  /**
   Whatever the validator says of a graph whose ends were just added: it accepts exactly the acceptable
   dictionaries, gives back a normalised graph, and never rejects for a one-sided edge or a missing link.
   */
  lemma ValidationOfExtended(o0: Nodes, o1: Nodes, o2: Nodes, o3: Nodes, s: Service, e: Service,
                             order: seq<Name>, err: Option<DagError>)
    requires s.name == START && e.name == END
    requires StartAdded(o0, s, o1) && EndAdded(o1, e, o2) && Grown(o2, o3)
    requires Elements(order) == o3.Keys
    requires err == Some(InvalidReference) <==> !AllKnown(o2)
    requires err != Some(MissingEndpoint) && err != Some(InvalidReference) ==> Inverse(Next(o3), Prev(o3))
    requires err == Some(DuplicateEdge) ==> !SuccessorsDistinct(o3)
    requires err == Some(Cycle) ==> SuccessorsDistinct(o3) && !Acyclic(Next(o3))
    requires err == Some(Disconnected) ==>
      Validated(o3) && order != [] && Reachable(Both(o3), order[0]) != o3.Keys
    requires err == None ==> Validated(o3)
    requires PossibleVerdict(err) && err != Some(MissingEndpoint)
    ensures err == None <==> AcceptableNodes(o0)
    ensures err == None ==> Normalised(o3) && AsMeant(o0, o3)
    ensures err == if !KnownWithEnds(o0) then Some(InvalidReference)
      else if !SuccessorsDistinct(o0) then Some(DuplicateEdge) else if !Rankable(o0) then Some(Cycle) else None
    ensures err != Some(Disconnected)
  {
    KnownAfterEnds(o0, o1, o2, s, e);
    if err != Some(InvalidReference) {
      ExtendedFacts(o0, o1, o2, o3, s, e);
      if err == Some(Disconnected) {
        assert order[0] in Elements(order);
        NormalisedIsConnected(o3, order[0]);
      }
      Verdict(o0, o3, err);
    }
  }

  lemma Verdict(o0: Nodes, o3: Nodes, err: Option<DagError>)
    requires err == None || err == Some(DuplicateEdge) || err == Some(Cycle)
    requires START !in o0 && END !in o0 && KnownWithEnds(o0)
    requires (SuccessorsDistinct(o3) <==> SuccessorsDistinct(o0)) && (Acyclic(Next(o3)) <==> Rankable(o0))
    requires err == None ==> SuccessorsDistinct(o3) && Acyclic(Next(o3))
    requires err == Some(DuplicateEdge) ==> !SuccessorsDistinct(o3)
    requires err == Some(Cycle) ==> SuccessorsDistinct(o3) && !Acyclic(Next(o3))
    ensures err == None <==> AcceptableNodes(o0)
    ensures err ==
      if !SuccessorsDistinct(o0) then Some(DuplicateEdge) else if !Rankable(o0) then Some(Cycle) else None
  {
  }

  /** The repaired graph against the dictionary: same duplicates, same cycles, and normalised once validated. */
  lemma ExtendedFacts(o0: Nodes, o1: Nodes, o2: Nodes, o3: Nodes, s: Service, e: Service)
    requires s.name == START && e.name == END && StartAdded(o0, s, o1) && EndAdded(o1, e, o2)
    requires Grown(o2, o3) && Inverse(Next(o3), Prev(o3)) && KnownWithEnds(o0)
    ensures SuccessorsDistinct(o3) <==> SuccessorsDistinct(o0)
    ensures Acyclic(Next(o3)) <==> Rankable(o0)
    ensures Validated(o3) ==> Normalised(o3)
    ensures START !in o0 && END !in o0 && AsMeant(o0, o3)
  {
    DistinctAfterEnds(o0, o1, o2, s, e);
    GrownKeepsDistinct(o2, o3);
    InverseClosed(Next(o3), Prev(o3));
    ResultAsMeant(o0, o1, o2, o3, s, e);
    AcyclicMeansRankable(o0, Next(o3));
    if Validated(o3) {
      EndsMakeNormalised(o0, o3);
    }
  }

  lemma ResultAsMeant(o0: Nodes, o1: Nodes, o2: Nodes, o3: Nodes, s: Service, e: Service)
    requires s.name == START && e.name == END && StartAdded(o0, s, o1) && EndAdded(o1, e, o2)
    requires Grown(o2, o3) && Inverse(Next(o3), Prev(o3)) && KnownWithEnds(o0)
    ensures START !in o0 && END !in o0 && AsMeant(o0, o3)
  {
    forall a, b ensures Edge(Next(o3), a, b) <==> MeantEdge(o0, a, b) {
      RepairedEdges(o0, o1, o2, o3, s, e, a, b);
    }
    var kids, tails := AddedLists(o0, o1, o2, s, e);
    GrownKeepsDistinct(o2, o3);
    forall n | n in o0
      ensures Distinct(o3[n].prev) <==> Distinct(o0[n].prev) && (HasParent(o0, n) || START !in o0[n].prev)
    {
      if !HasParent(o0, n) {
        DistinctSnoc(o0[n].prev, START);
      }
    }
  }

  lemma DistinctSnoc(s: seq<Name>, x: Name)
    ensures Distinct(s + [x]) <==> Distinct(s) && x !in s
  {
    if Distinct(s + [x]) {
      forall i, j | 0 <= i < j < |s| ensures s[i] != s[j] {
        assert (s + [x])[i] != (s + [x])[j];
      }
      forall i | 0 <= i < |s| ensures s[i] != x {
        assert (s + [x])[i] != (s + [x])[|s|];
      }
    }
  }

  method ExtractDagFromDict(items: seq<Item>) returns (r: Result<DAG, DagError>)
    ensures r.Success? ==> fresh(r.value) && r.value.Valid() && Validated(r.value.nodes)
    ensures r.Success? ==> KeepsServices(items, r.value.nodes)
    ensures !HasKey(items, START) && !HasKey(items, END) ==>
      && (r.Success? <==> Acceptable(items))
      && (r.Success? ==> Normalised(r.value.nodes) && AsMeant(NodesOf(items), r.value.nodes))
      && (r.Success? ==> NonNegativeTimes(r.value.nodes))
      && (r.Failure? ==> FaultOf(items) == Some(r.error))
  {
    r := FromDict(items);
    if r.Failure? {
      return;
    }
    var dag := r.value;
    var hasStart := ContainsKey(items, START);
    if !hasStart {
      var ok := dag.AddStartNode(Service(START, "", 0.0, 0.0, None));
      if !ok {
        return Failure(DuplicateNode);
      }
    }
    ghost var o1 := dag.nodes;
    StartKeeps(items, NodesOf(items), o1);
    var hasEnd := ContainsKey(items, END);
    if !hasEnd {
      var ok := dag.AddEndNode(Service(END, "", 0.0, 0.0, None));
      if !ok {
        return Failure(DuplicateNode);
      }
    }
    ghost var o2 := dag.nodes;
    EndKeeps(items, o1, o2);
    var err := ValidateDag(dag);
    GrownKeeps(items, o2, dag.nodes);
    if !hasStart && !hasEnd {
      ValidationOfExtended(NodesOf(items), o1, o2, dag.nodes, Service(START, "", 0.0, 0.0, None),
                           Service(END, "", 0.0, 0.0, None), dag.order, err);
      TimesStayClamped(items, o1, o2, dag.nodes);
    }
    if err.Some? {
      return Failure(err.value);
    }
    return Success(dag);
  }

  // No later step touches a service.

  lemma StartKeeps(items: seq<Item>, before: Nodes, after: Nodes)
    requires KeepsServices(items, before)
    requires after == before || StartAdded(before, Service(START, "", 0.0, 0.0, None), after)
    ensures KeepsServices(items, after)
  {
  }

  lemma EndKeeps(items: seq<Item>, before: Nodes, after: Nodes)
    requires KeepsServices(items, before)
    requires after == before || EndAdded(before, Service(END, "", 0.0, 0.0, None), after)
    ensures KeepsServices(items, after)
  {
  }

  lemma GrownKeeps(items: seq<Item>, before: Nodes, after: Nodes)
    requires KeepsServices(items, before) && Grown(before, after)
    ensures KeepsServices(items, after)
  {
    forall i | 0 <= i < |items| ensures GrownAt(before, after, items[i].service.name) {
    }
  }

  /** Times were clamped when read, and the added ends take none. */
  lemma TimesStayClamped(items: seq<Item>, o1: Nodes, o2: Nodes, o3: Nodes)
    requires StartAdded(NodesOf(items), Service(START, "", 0.0, 0.0, None), o1)
    requires EndAdded(o1, Service(END, "", 0.0, 0.0, None), o2) && Grown(o2, o3)
    ensures NonNegativeTimes(o3)
  {
    ClampedTimes(items);
    forall n | n in o3 ensures o3[n].service.transmitTime >= 0.0 && o3[n].service.executeTime >= 0.0 {
      assert GrownAt(o2, o3, n);
    }
  }

  lemma {:induction false} ClampedTimes(items: seq<Item>)
    ensures NonNegativeTimes(NodesOf(items))
  {
    if items != [] {
      ClampedTimes(items[..|items| - 1]);
    }
  }

  method ContainsKey(items: seq<Item>, key: Name) returns (b: bool)
    ensures b <==> HasKey(items, key)
  {
    for i := 0 to |items|
      invariant forall j :: 0 <= j < i ==> items[j].key != key
    {
      if items[i].key == key {
        return true;
      }
    }
    return false;
  }
}
