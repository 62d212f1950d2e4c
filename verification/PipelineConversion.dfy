/** Converting a list of services to a service graph and back. */
module PipelineConversion {
  import opened Graphs
  import opened Wrappers
  import opened Dags
  import opened DagValidation
  import opened DagExtraction
  import opened Pipeline

  /** What a pipeline deployment lists of each service. */
  datatype Stage = Stage(name: Name, device: string)

  datatype PipelineError = NotAPipeline | NoEndpoint

  /** Names that can serve as dictionary keys: non-empty, unreserved, and all different. */
  ghost predicate GoodNames(services: seq<Service>) {
    && (forall i :: 0 <= i < |services| ==>
         services[i].name != "" && services[i].name != START && services[i].name != END)
    && forall i, j :: 0 <= i < j < |services| ==> services[i].name != services[j].name
  }

  ghost function Names(services: seq<Service>): (r: seq<Name>)
    ensures |r| == |services| && forall i :: 0 <= i < |services| ==> r[i] == services[i].name
  {
    seq(|services|, i requires 0 <= i < |services| => services[i].name)
  }

  /** The start, the services in order, the end. */
  ghost function ChainNames(services: seq<Service>): seq<Name> {
    [START] + Names(services) + [END]
  }

  ghost function StagesOf(services: seq<Service>): seq<Stage> {
    seq(|services|, i requires 0 <= i < |services| => Stage(services[i].name, services[i].device))
  }

  // ----- from services to a dictionary -----

  /** The position of `key`, or the length of the dictionary. */
  function KeyIndex(items: seq<Item>, key: Name): (k: nat)
    ensures k <= |items| && (k < |items| ==> items[k].key == key)
    ensures forall i :: 0 <= i < k ==> items[i].key != key
  {
    if items == [] then 0 else if items[0].key == key then 0 else 1 + KeyIndex(items[1..], key)
  }

  lemma HasKeyKept(was: seq<Item>, items: seq<Item>)
    requires |was| <= |items| && forall i :: 0 <= i < |was| ==> items[i].key == was[i].key
    ensures forall key :: HasKey(was, key) ==> HasKey(items, key)
  {
    forall key | HasKey(was, key) ensures HasKey(items, key) {
      var i :| 0 <= i < |was| && was[i].key == key;
      assert items[i].key == key;
    }
  }

  /** The item of the `i`th service once the dictionary is complete. */
  ghost predicate IsChainItem(services: seq<Service>, item: Item, i: nat)
    requires i < |services|
  {
    item == Item(services[i].name, services[i], [], if i + 1 < |services| then [services[i + 1].name] else [])
  }

  ghost predicate AreChainItems(services: seq<Service>, items: seq<Item>) {
    |items| == |services| && forall i :: 0 <= i < |items| ==> IsChainItem(services, items[i], i)
  }

  /** One more service has an item; with good names it is a new one. */
  lemma DeclareNext(services: seq<Service>, items: seq<Item>, i: nat, k: nat)
    requires i < |services| && k == KeyIndex(items, services[i].name)
    requires forall j :: 0 <= j < i ==> HasKey(items, services[j].name)
    requires GoodNames(services) ==>
      |items| == i && forall j :: 0 <= j < i ==> items[j] == Item(services[j].name, services[j], [], [])
    ensures var item := Item(services[i].name, services[i], [], []);
      var more := if k < |items| then items[k := item] else items + [item];
      && (forall j :: 0 <= j <= i ==> HasKey(more, services[j].name))
      && (GoodNames(services) ==> k == |items| && |more| == i + 1)
  {
    var item := Item(services[i].name, services[i], [], []);
    var more := if k < |items| then items[k := item] else items + [item];
    assert more[k].key == services[i].name;
    HasKeyKept(items, more);
  }

  /** One bare item per service; a repeated name overwrites its item in place. */
  method DeclareItems(services: seq<Service>) returns (items: seq<Item>)
    ensures Declared(services, items)
    ensures GoodNames(services) ==> |items| == |services| &&
                                    forall j :: 0 <= j < |services| ==>
                                      items[j] == Item(services[j].name, services[j], [], [])
  {
    items := [];
    for i := 0 to |services|
      invariant forall j :: 0 <= j < i ==> HasKey(items, services[j].name)
      invariant GoodNames(services) ==> |items| == i
      invariant GoodNames(services) ==> forall j :: 0 <= j < i ==>
        items[j] == Item(services[j].name, services[j], [], [])
    {
      var item := Item(services[i].name, services[i], [], []);
      var k := KeyIndex(items, services[i].name);
      DeclareNext(services, items, i, k);
      items := if k < |items| then items[k := item] else items + [item];
    }
  }

  /** The items before `i` are bare, the others point to their successors. */
  ghost predicate Threaded(services: seq<Service>, items: seq<Item>, i: nat) {
    && |items| == |services| && i <= |items|
    && (forall j :: 0 <= j < i ==> items[j] == Item(services[j].name, services[j], [], []))
    && forall j :: i <= j < |items| ==> IsChainItem(services, items[j], j)
  }

  lemma ThreadStep(services: seq<Service>, items: seq<Item>, i: nat)
    requires i < |services| && Threaded(services, items, i + 1)
    ensures Threaded(services, if i + 1 == |services| then items
      else items[i := items[i].(next := items[i].next + [services[i + 1].name])], i)
  {
  }

  /** Every service has an item. */
  ghost predicate Declared(services: seq<Service>, items: seq<Item>) {
    forall j :: 0 <= j < |services| ==> HasKey(items, services[j].name)
  }

  lemma DeclaredKept(services: seq<Service>, items: seq<Item>, k: nat, next: seq<Name>)
    requires Declared(services, items) && k < |items|
    ensures Declared(services, items[k := items[k].(next := next)])
  {
    HasKeyKept(items, items[k := items[k].(next := next)]);
  }

  /** With good names the step at `i` adds the name of the next service to the item of this one. */
  lemma ThreadsOn(services: seq<Service>, items: seq<Item>, i: nat, k: nat, prevNode: Name)
    requires i < |services| && Declared(services, items) && k == KeyIndex(items, services[i].name)
    requires GoodNames(services) ==>
      Threaded(services, items, i + 1) && prevNode == if i + 1 < |services| then services[i + 1].name else ""
    ensures k < |items|
    ensures GoodNames(services) ==>
      Threaded(services, if prevNode != "" then items[k := items[k].(next := items[k].next + [prevNode])] else items, i)
  {
    ItemAt(services, items, i, k);
    if GoodNames(services) {
      ThreadStep(services, items, i);
    }
  }

  /** Assigns one item per service, then threads the names together from the last to the first. */
  method BuildItems(services: seq<Service>) returns (items: seq<Item>)
    ensures GoodNames(services) ==> AreChainItems(services, items)
  {
    items := DeclareItems(services);
    var prevNode := "";
    for i := |services| downto 0
      invariant Declared(services, items)
      invariant GoodNames(services) ==> prevNode == if i < |services| then services[i].name else ""
      invariant GoodNames(services) ==> Threaded(services, items, i)
    {
      var k := KeyIndex(items, services[i].name);
      ThreadsOn(services, items, i, k, prevNode);
      if prevNode != "" {
        DeclaredKept(services, items, k, items[k].next + [prevNode]);
        items := items[k := items[k].(next := items[k].next + [prevNode])];
      }
      prevNode := services[i].name;
    }
  }

  /** With good names, the item of the `i`th service sits at position `i`. */
  lemma {:induction false} ItemAt(services: seq<Service>, items: seq<Item>, i: nat, k: nat)
    requires i < |services| && HasKey(items, services[i].name) && k == KeyIndex(items, services[i].name)
    requires GoodNames(services) ==> |items| == |services|
    requires GoodNames(services) ==> forall j :: 0 <= j <= i ==> items[j] == Item(services[j].name, services[j], [], [])
    ensures k < |items| && (GoodNames(services) ==> k == i)
  {
  }

  // ----- the graph of a chain -----

  lemma {:induction false} NodesOfKey(items: seq<Item>, n: Name) returns (i: nat)
    requires n in NodesOf(items)
    ensures i < |items| && items[i].service.name == n
    decreases |items|
  {
    if items[|items| - 1].service.name == n {
      i := |items| - 1;
    } else {
      i := NodesOfKey(items[..|items| - 1], n);
    }
  }

  ghost predicate ChainNode(services: seq<Service>, nodes: Nodes, i: nat)
    requires i < |services|
  {
    && services[i].name in nodes
    && nodes[services[i].name] == Node(Clamp(services[i]), [], if i + 1 < |services| then [services[i + 1].name]
       else [])
  }

  /** The nodes of the dictionary built from good names, spelled out. */
  ghost predicate ChainNodes(services: seq<Service>, nodes: Nodes) {
    && (forall i :: 0 <= i < |services| ==> ChainNode(services, nodes, i))
    && forall n {:trigger n in nodes} :: n in nodes ==> n in Names(services)
  }

  lemma ItemsGiveChainNodes(services: seq<Service>, items: seq<Item>)
    requires GoodNames(services) && AreChainItems(services, items)
    ensures DistinctNames(items) && ChainNodes(services, NodesOf(items))
  {
    forall i | 0 <= i < |items| ensures items[i].service.name == services[i].name {
      assert IsChainItem(services, items[i], i);
    }
    forall i | 0 <= i < |services| ensures ChainNode(services, NodesOf(items), i) {
      assert IsChainItem(services, items[i], i);
      NodesOfAt(items, i);
    }
    forall n | n in NodesOf(items) ensures n in Names(services) {
      var i := NodesOfKey(items, n);
      assert Names(services)[i] == n;
    }
  }

  /** Two names follow each other on the chain. */
  ghost predicate Adjacent(p: seq<Name>, a: Name, b: Name) {
    exists i :: 0 <= i < |p| - 1 && p[i] == a && p[i + 1] == b
  }

  /** The position on the chain of a node of the dictionary. */
  lemma ChainIndex(services: seq<Service>, nodes: Nodes, n: Name) returns (i: nat)
    requires ChainNodes(services, nodes) && n in nodes
    ensures i < |services| && services[i].name == n && ChainNode(services, nodes, i)
  {
    i :| 0 <= i < |services| && Names(services)[i] == n;
  }

  lemma ChainParents(services: seq<Service>, nodes: Nodes, i: nat)
    requires GoodNames(services) && ChainNodes(services, nodes) && i < |services|
    ensures HasParent(nodes, services[i].name) <==> i > 0
  {
    if i > 0 {
      assert ChainNode(services, nodes, i - 1);
      assert services[i].name in nodes[services[i - 1].name].next;
    }
    if HasParent(nodes, services[i].name) {
      var m :| m in nodes && services[i].name in nodes[m].next;
      var j := ChainIndex(services, nodes, m);
      assert services[j + 1].name == services[i].name;
    }
  }

  /** The meant edges of such a dictionary are the steps of the chain. */
  lemma ChainMeant(services: seq<Service>, nodes: Nodes, a: Name, b: Name)
    requires GoodNames(services) && ChainNodes(services, nodes)
    ensures MeantEdge(nodes, a, b) <==> Adjacent(ChainNames(services), a, b)
  {
    if MeantEdge(nodes, a, b) {
      MeantIsAdjacent(services, nodes, a, b);
    }
    if Adjacent(ChainNames(services), a, b) {
      AdjacentIsMeant(services, nodes, a, b);
    }
  }

  lemma AdjacentIsMeant(services: seq<Service>, nodes: Nodes, a: Name, b: Name)
    requires GoodNames(services) && ChainNodes(services, nodes) && Adjacent(ChainNames(services), a, b)
    ensures MeantEdge(nodes, a, b)
  {
    var p, n := ChainNames(services), |services|;
    var i :| 0 <= i < |p| - 1 && p[i] == a && p[i + 1] == b;
    if 0 < i {
      assert ChainNode(services, nodes, i - 1);
      assert a == services[i - 1].name;
      if i < n {
        assert b == services[i].name;
      }
    } else if n > 0 {
      assert ChainNode(services, nodes, 0) && b == services[0].name;
      ChainParents(services, nodes, 0);
    } else {
      assert forall m :: m in nodes ==> m in Names(services);
    }
  }

  lemma MeantIsAdjacent(services: seq<Service>, nodes: Nodes, a: Name, b: Name)
    requires GoodNames(services) && ChainNodes(services, nodes) && MeantEdge(nodes, a, b)
    ensures Adjacent(ChainNames(services), a, b)
  {
    if b in nodes {
      AdjacentBefore(services, nodes, a, b);
    } else {
      AdjacentToEnd(services, nodes, a, b);
    }
  }

  /** What is meant to lead to a service is the one before it, or the start. */
  lemma AdjacentBefore(services: seq<Service>, nodes: Nodes, a: Name, b: Name)
    requires GoodNames(services) && ChainNodes(services, nodes) && MeantEdge(nodes, a, b) && b in nodes
    ensures Adjacent(ChainNames(services), a, b)
  {
    var p, n := ChainNames(services), |services|;
    var j := ChainIndex(services, nodes, b);
    assert p[j + 1] == b;
    ChainParents(services, nodes, j);
    if a in nodes {
      var i := ChainIndex(services, nodes, a);
      assert p[i + 1] == a;
      assert a != START;
      assert i + 1 < n && services[i + 1].name == b;
      assert p[i + 2] == b;
    } else {
      assert a == START && p[0] == a && j == 0;
    }
  }

  /** What is meant to lead to the end is the last service, or the start if there is none. */
  lemma AdjacentToEnd(services: seq<Service>, nodes: Nodes, a: Name, b: Name)
    requires GoodNames(services) && ChainNodes(services, nodes) && MeantEdge(nodes, a, b) && b !in nodes
    ensures Adjacent(ChainNames(services), a, b)
  {
    var p, n := ChainNames(services), |services|;
    if a in nodes {
      var i := ChainIndex(services, nodes, a);
      assert p[i + 1] == a;
      assert i + 1 >= n || ChainNode(services, nodes, i + 1);
      assert p[i + 2] == b;
    } else {
      assert a == START && p[0] == a;
      if n > 0 {
        assert ChainNode(services, nodes, 0);
        ChainParents(services, nodes, 0);
      }
      assert p[1] == b;
    }
  }

  /** Good names always make an acceptable dictionary. */
  lemma ChainAcceptable(services: seq<Service>, items: seq<Item>)
    requires GoodNames(services) && AreChainItems(services, items)
    ensures Acceptable(items) && !HasKey(items, START) && !HasKey(items, END)
  {
    ItemsGiveChainNodes(services, items);
    var nodes := NodesOf(items);
    forall i | 0 <= i < |items| ensures items[i].key == services[i].name {
      assert IsChainItem(services, items[i], i);
    }
    ChainRank(services, nodes);
    forall n | n in nodes
      ensures Distinct(nodes[n].next)
      ensures (forall c :: c in nodes[n].next ==> c in nodes.Keys + {START, END}) && nodes[n].prev == []
      ensures n != START && n != END
    {
      var i := ChainIndex(services, nodes, n);
      assert i + 1 < |services| ==> ChainNode(services, nodes, i + 1);
    }
  }

  lemma ChainHoldsAll(services: seq<Service>, nodes: Nodes)
    requires GoodNames(services) && ChainNodes(services, nodes)
    ensures forall n :: n in nodes.Keys + {START, END} ==> n in ChainNames(services)
  {
    var p := ChainNames(services);
    forall n | n in nodes.Keys + {START, END} ensures n in p {
      if n in nodes {
        var i := ChainIndex(services, nodes, n);
        assert p[i + 1] == n;
      } else {
        assert p[0] == START && p[|p| - 1] == END;
      }
    }
  }

  lemma ChainRank(services: seq<Service>, nodes: Nodes)
    requires GoodNames(services) && ChainNodes(services, nodes)
    ensures Rankable(nodes)
  {
    var p := ChainNames(services);
    ChainDistinct(services);
    ChainHoldsAll(services, nodes);
    var rank: map<Name, int> := map n | n in nodes.Keys + {START, END} :: |p| - Position(p, n);
    forall a, b | a in rank && b in rank && MeantEdge(nodes, a, b) ensures rank[b] < rank[a] {
      ChainMeant(services, nodes, a, b);
      AdjacentPositions(p, a, b);
    }
    assert Ranks(nodes, rank);
  }

  lemma AdjacentPositions(p: seq<Name>, a: Name, b: Name)
    requires Distinct(p) && Adjacent(p, a, b)
    ensures a in p && b in p && Position(p, a) < Position(p, b)
  {
    var i :| 0 <= i < |p| - 1 && p[i] == a && p[i + 1] == b;
    PositionAt(p, i);
    PositionAt(p, i + 1);
  }

  lemma ChainDistinct(services: seq<Service>)
    requires GoodNames(services)
    ensures Distinct(ChainNames(services))
  {
  }

  /** A validated graph with exactly the steps of the chain as edges is the chain. */
  lemma MeantChainIsChain(services: seq<Service>, o0: Nodes, nodes: Nodes)
    requires GoodNames(services) && ChainNodes(services, o0) && Validated(nodes) && AsMeant(o0, nodes)
    ensures IsChain(nodes, ChainNames(services))
  {
    var p := ChainNames(services);
    ChainDistinct(services);
    ChainCovers(services, o0, nodes);
    forall i | 0 <= i < |p| ensures ChainLinks(nodes, p, i) {
      ChainLinksAt(services, o0, nodes, i);
    }
  }

  lemma ChainCovers(services: seq<Service>, o0: Nodes, nodes: Nodes)
    requires GoodNames(services) && ChainNodes(services, o0) && nodes.Keys == o0.Keys + {START, END}
    ensures Elements(ChainNames(services)) == nodes.Keys
  {
    var p := ChainNames(services);
    forall n | n in nodes ensures n in p {
      if n in o0 {
        var i := ChainIndex(services, o0, n);
        assert p[i + 1] == n;
      } else {
        assert p[0] == START && p[|p| - 1] == END;
      }
    }
    forall i | 0 <= i < |p| ensures p[i] in nodes {
      assert 0 < i < |p| - 1 ==> p[i] == services[i - 1].name && ChainNode(services, o0, i - 1);
    }
  }

  lemma AdjacentAt(p: seq<Name>, i: nat, x: Name)
    requires Distinct(p) && i < |p|
    ensures Adjacent(p, p[i], x) <==> i < |p| - 1 && x == p[i + 1]
    ensures Adjacent(p, x, p[i]) <==> i > 0 && x == p[i - 1]
  {
    if i > 0 && x == p[i - 1] {
      assert p[i - 1 + 1] == p[i];
    }
  }

  lemma ChainLinksAt(services: seq<Service>, o0: Nodes, nodes: Nodes, i: nat)
    requires GoodNames(services) && ChainNodes(services, o0) && Validated(nodes) && AsMeant(o0, nodes)
    requires i < |ChainNames(services)| && Elements(ChainNames(services)) == nodes.Keys &&
      Distinct(ChainNames(services))
    ensures ChainLinks(nodes, ChainNames(services), i)
  {
    var p := ChainNames(services);
    assert p[i] in Elements(p);
    forall x
      ensures x in nodes[p[i]].next <==> i < |p| - 1 && x == p[i + 1]
      ensures x in nodes[p[i]].prev <==> i > 0 && x == p[i - 1]
    {
      AdjacentAt(p, i, x);
      ChainMeant(services, o0, p[i], x);
      ChainMeant(services, o0, x, p[i]);
      assert Edge(Next(nodes), p[i], x) <==> MeantEdge(o0, p[i], x);
      assert Edge(Prev(nodes), p[i], x) <==> Edge(Next(nodes), x, p[i]);
      assert Edge(Next(nodes), x, p[i]) <==> MeantEdge(o0, x, p[i]);
    }
    if i < |p| - 1 {
      OnlyElement(nodes[p[i]].next, p[i + 1]);
    } else {
      FirstElement(nodes[p[i]].next);
    }
    if i > 0 {
      PrevDistinct(services, o0, nodes, p[i]);
      OnlyElement(nodes[p[i]].prev, p[i - 1]);
    } else {
      FirstElement(nodes[p[i]].prev);
    }
  }

  lemma PrevDistinct(services: seq<Service>, o0: Nodes, nodes: Nodes, n: Name)
    requires GoodNames(services) && ChainNodes(services, o0) && AsMeant(o0, nodes) && n in nodes && n != START
    ensures Distinct(nodes[n].prev)
  {
    if n in o0 {
      var i := ChainIndex(services, o0, n);
      assert o0[n].prev == [];
    }
  }

  // ----- the operations -----

  method ExtractDagFromPipelineDeployment(services: seq<Service>) returns (r: Result<DAG, DagError>)
    ensures r.Success? ==> fresh(r.value) && r.value.Valid() && Validated(r.value.nodes)
    ensures GoodNames(services) ==>
      && r.Success?
      && IsChain(r.value.nodes, ChainNames(services))
      && forall i :: 0 <= i < |services| ==>
        services[i].name in r.value.nodes && KeptService(services[i], r.value.nodes[services[i].name].service)
  {
    var items := BuildItems(services);
    r := ExtractDagFromDict(items);
    if GoodNames(services) {
      ChainAcceptable(services, items);
      ItemsGiveChainNodes(services, items);
      MeantChainIsChain(services, NodesOf(items), r.value.nodes);
      ServicesOnChain(services, items, r.value.nodes);
    }
  }

  lemma ServicesOnChain(services: seq<Service>, items: seq<Item>, nodes: Nodes)
    requires AreChainItems(services, items) && KeepsServices(items, nodes)
    ensures forall i :: 0 <= i < |services| ==>
      services[i].name in nodes && KeptService(services[i], nodes[services[i].name].service)
  {
    forall i | 0 <= i < |services| ensures items[i].service == services[i] {
      assert IsChainItem(services, items[i], i);
    }
  }

  method ExtractPipelineDeploymentFromDag(dag: DAG) returns (r: Result<seq<Stage>, PipelineError>)
    requires dag.Valid() && Inverse(Next(dag.nodes), Prev(dag.nodes))
    ensures r.Success? <==> START in dag.nodes && END in dag.nodes && exists p :: IsChain(dag.nodes, p)
    ensures forall p :: IsChain(dag.nodes, p) ==>
      && r.Success? && |r.value| == |p| - 2
      && forall i :: 0 <= i < |r.value| ==> r.value[i] == Stage(p[i + 1], dag.nodes[p[i + 1]].service.device)
  {
    var check := CheckIsPipeline(dag);
    if check.Failure? {
      return Failure(NoEndpoint);
    }
    if !check.value {
      return Failure(NotAPipeline);
    }
    var nodes := dag.nodes;
    ghost var p :| IsChain(nodes, p);
    assert ChainLinks(nodes, p, 0);
    var stages: seq<Stage> := [];
    var current := nodes[START].next[0];
    while current != END
      invariant |stages| + 1 < |p| && current == p[|stages| + 1]
      invariant forall i :: 0 <= i < |stages| ==> stages[i] == Stage(p[i + 1], nodes[p[i + 1]].service.device)
      decreases |p| - |stages|
    {
      assert ChainLinks(nodes, p, |stages| + 1);
      stages := stages + [Stage(nodes[current].service.name, nodes[current].service.device)];
      current := nodes[current].next[0];
    }
    assert |stages| + 1 == |p| - 1;
    forall q | IsChain(nodes, q) ensures q == p {
      ChainUnique(nodes, p, q);
    }
    return Success(stages);
  }

  lemma ChainUnique(nodes: Nodes, p: seq<Name>, q: seq<Name>)
    requires IsChain(nodes, p) && IsChain(nodes, q)
    ensures p == q
  {
    ChainIsWalk(nodes, p);
    ChainIsWalk(nodes, q);
    ChainFollowsWalk(nodes, p, q);
    ChainFollowsWalk(nodes, q, p);
  }

  lemma ChainIsWalk(nodes: Nodes, p: seq<Name>)
    requires IsChain(nodes, p)
    ensures Walked(nodes, p)
  {
    forall n | n in p ensures n in nodes {
      assert n in Elements(p);
    }
    forall i | 0 <= i < |p| - 1 ensures WalkLink(nodes, p, i) {
      assert ChainLinks(nodes, p, i);
      assert p[i] != p[|p| - 1];
    }
  }

  /** There and back: good names come back in order, with their devices. */
  method RoundTrip(services: seq<Service>) returns (r: Result<seq<Stage>, PipelineError>)
    ensures GoodNames(services) ==> r == Success(StagesOf(services))
  {
    var dag := ExtractDagFromPipelineDeployment(services);
    if dag.Failure? {
      return Failure(NotAPipeline);
    }
    r := ExtractPipelineDeploymentFromDag(dag.value);
    if GoodNames(services) {
      assert IsChain(dag.value.nodes, ChainNames(services));
      StagesComeBack(services, dag.value.nodes, r.value);
    }
  }

  lemma StagesComeBack(services: seq<Service>, nodes: Nodes, stages: seq<Stage>)
    requires |stages| == |services|
    requires forall i :: 0 <= i < |services| ==>
      services[i].name in nodes && KeptService(services[i], nodes[services[i].name].service)
    requires var p := ChainNames(services);
             forall i :: 0 <= i < |stages| ==>
               p[i + 1] in nodes && stages[i] == Stage(p[i + 1], nodes[p[i + 1]].service.device)
    ensures stages == StagesOf(services)
  {
    forall i | 0 <= i < |services| ensures stages[i] == StagesOf(services)[i] {
      assert ChainNames(services)[i + 1] == services[i].name;
    }
  }
}
