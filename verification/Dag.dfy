/** The service graph of a task: nodes with their neighbour lists, edges, and the two artificial ends. */
module Dags {
  import opened Graphs
  import opened Wrappers

  const START: Name := "_start"
  const END: Name := "_end"

  datatype Service = Service(name: Name, device: string, transmitTime: real, executeTime: real,
      content: Option<string>) {
    function TotalTime(): real {
      transmitTime + executeTime
    }
  }

  datatype Node = Node(service: Service, prev: seq<Name>, next: seq<Name>)

  type Nodes = map<Name, Node>

  function Next(nodes: Nodes): Graph {
    map n | n in nodes :: nodes[n].next
  }

  function Prev(nodes: Nodes): Graph {
    map n | n in nodes :: nodes[n].prev
  }

  /** Some node lists `n` as a successor. */
  ghost predicate HasParent(nodes: Nodes, n: Name) {
    exists m :: m in nodes && n in nodes[m].next
  }

  ghost predicate NamedByService(nodes: Nodes) {
    forall n :: n in nodes ==> nodes[n].service.name == n
  }

  /** `kids` are the nodes of `nodes` without a parent, each once. */
  ghost predicate AreParentless(nodes: Nodes, kids: seq<Name>) {
    Distinct(kids) && forall m {:trigger m in kids} {:trigger HasParent(nodes, m)} :: m in kids <==>
      m in nodes && !HasParent(nodes, m)
  }

  ghost predicate AreChildless(nodes: Nodes, tails: seq<Name>) {
    Distinct(tails) && forall m :: m in tails <==> m in nodes && nodes[m].next == []
  }

  /** `after` is `before` with `start` leading to every node that had no parent. */
  ghost predicate StartAdded(before: Nodes, start: Service, after: Nodes) {
    && start.name !in before
    && after.Keys == before.Keys + {start.name}
    && (forall m {:trigger after[m]} :: m in before ==>
      after[m] == if HasParent(before, m) then before[m] else before[m].(prev := before[m].prev + [start.name]))
    && exists kids :: AreParentless(before, kids) && after[start.name] == Node(start, [], kids)
  }

  /** `after` is `before` with every node that had no child leading to `end`. */
  ghost predicate EndAdded(before: Nodes, end: Service, after: Nodes) {
    && end.name !in before
    && after.Keys == before.Keys + {end.name}
    && (forall m {:trigger after[m]} :: m in before ==>
      after[m] == if before[m].next != [] then before[m] else before[m].(next := [end.name]))
    && exists tails :: AreChildless(before, tails) && after[end.name] == Node(end, tails, [])
  }

  /** The names of `order` other than `own` that no node lists as a successor, in that order. */
  ghost function ParentlessIn(nodes: Nodes, order: seq<Name>, own: Name): seq<Name> {
    if order == [] then [] else
      var last := order[|order| - 1];
      ParentlessIn(nodes, order[..|order| - 1], own) + if HasParent(nodes, last) || last == own then [] else [last]
  }

  /** The names of `order` other than `own` whose nodes have no successor, in that order. */
  ghost function ChildlessIn(nodes: Nodes, order: seq<Name>, own: Name): seq<Name> {
    if order == [] then [] else
      var last := order[|order| - 1];
      ChildlessIn(nodes, order[..|order| - 1], own)
      + if last !in nodes || nodes[last].next != [] || last == own then [] else [last]
  }

  lemma NextName(nodes: Nodes, order: seq<Name>, i: nat, own: Name)
    requires i < |order|
    ensures ParentlessIn(nodes, order[..i + 1], own) ==
            ParentlessIn(nodes, order[..i], own) + if HasParent(nodes, order[i]) || order[i] == own then []
                                                   else [order[i]]
    ensures ChildlessIn(nodes, order[..i + 1], own) ==
            ChildlessIn(nodes, order[..i], own)
            + if order[i] !in nodes || nodes[order[i]].next != [] || order[i] == own then [] else [order[i]]
  {
    assert order[..i + 1][..i] == order[..i];
  }

  lemma {:induction false} ParentlessMembers(nodes: Nodes, order: seq<Name>, own: Name)
    requires Distinct(order)
    ensures Distinct(ParentlessIn(nodes, order, own))
    ensures forall m :: m in ParentlessIn(nodes, order, own) <==> m in order && m != own && !HasParent(nodes, m)
    decreases |order|
  {
    if order != [] {
      ParentlessMembers(nodes, order[..|order| - 1], own);
      assert order == order[..|order| - 1] + [order[|order| - 1]];
    }
  }

  lemma {:induction false} ChildlessMembers(nodes: Nodes, order: seq<Name>, own: Name)
    requires Distinct(order)
    ensures Distinct(ChildlessIn(nodes, order, own))
    ensures forall m :: m in ChildlessIn(nodes, order, own) <==>
      m in order && m in nodes && m != own && nodes[m].next == []
    decreases |order|
  {
    if order != [] {
      ChildlessMembers(nodes, order[..|order| - 1], own);
      assert order == order[..|order| - 1] + [order[|order| - 1]];
    }
  }

  /** An added node without neighbours changes neither. */
  lemma {:induction false} AddedChangesNeither(before: Nodes, order: seq<Name>, s: Service, after: Nodes)
    requires s.name !in before && after == before[s.name := Node(s, [], [])]
    ensures ParentlessIn(after, order, s.name) == ParentlessIn(before, order, s.name)
    ensures ChildlessIn(after, order, s.name) == ChildlessIn(before, order, s.name)
    decreases |order|
  {
    if order != [] {
      AddedChangesNeither(before, order[..|order| - 1], s, after);
      IsolatedParents(before, s, after);
    }
  }

  lemma OwnIsNeither(before: Nodes, order: seq<Name>, s: Service, after: Nodes)
    requires s.name !in before && after == before[s.name := Node(s, [], [])]
    ensures ParentlessIn(after, order + [s.name], s.name) == ParentlessIn(before, order, s.name)
    ensures ChildlessIn(after, order + [s.name], s.name) == ChildlessIn(before, order, s.name)
  {
    assert (order + [s.name])[..|order|] == order;
    AddedChangesNeither(before, order, s, after);
  }

  ghost function Link(nodes: Nodes, from: Name, to: Name): Nodes
    requires from in nodes && to in nodes
  {
    var half := nodes[from := nodes[from].(next := nodes[from].next + [to])];
    half[to := half[to].(prev := half[to].prev + [from])]
  }

  lemma LinkNames(nodes: Nodes, from: Name, to: Name)
    requires from in nodes && to in nodes && NamedByService(nodes)
    ensures Link(nodes, from, to).Keys == nodes.Keys && NamedByService(Link(nodes, from, to))
  {
  }

  lemma StartLinked(before: Nodes, start: Service, kids: seq<Name>, after: Nodes)
    requires start.name !in before && AreParentless(before, kids) && after.Keys == before.Keys + {start.name}
    requires after[start.name] == Node(start, [], kids)
    requires forall m :: m in before ==>
      after[m] == if m in kids then before[m].(prev := before[m].prev + [start.name]) else before[m]
    ensures StartAdded(before, start, after)
  {
  }

  class DAG {
    var order: seq<Name>
    var nodes: Nodes

    ghost predicate Valid()
      reads this
    {
      Distinct(order) && Elements(order) == nodes.Keys && NamedByService(nodes)
    }

    constructor ()
      ensures Valid() && nodes == map[] && order == []
    {
      order, nodes := [], map[];
    }

    method AddNode(node: Node) returns (ok: bool)
      requires Valid()
      modifies this
      ensures Valid()
      ensures ok <==> node.service.name !in old(nodes)
      ensures ok ==> nodes == old(nodes)[node.service.name := node] && order == old(order) + [node.service.name]
      ensures !ok ==> nodes == old(nodes) && order == old(order)
    {
      var name := node.service.name;
      if name in nodes {
        return false;
      }
      assert name !in Elements(order);
      nodes := nodes[name := node];
      order := order + [name];
      assert Elements(order) == Elements(old(order)) + {name};
      return true;
    }

    method AddEdge(from: Service, to: Service)
      requires Valid()
      modifies this
      ensures Valid()
      ensures var n0 := if from.name in old(nodes) then old(nodes) else old(nodes)[from.name := Node(from, [], [])];
        var n1 := if to.name in n0 then n0 else n0[to.name := Node(to, [], [])];
        nodes == Link(n1, from.name, to.name)
      ensures from.name in old(nodes) && to.name in old(nodes) ==> order == old(order)
    {
      if from.name !in nodes {
        var _ := AddNode(Node(from, [], []));
      }
      if to.name !in nodes {
        var _ := AddNode(Node(to, [], []));
      }
      LinkNames(nodes, from.name, to.name);
      nodes := nodes[from.name := nodes[from.name].(next := nodes[from.name].next + [to.name])];
      nodes := nodes[to.name := nodes[to.name].(prev := nodes[to.name].prev + [from.name])];
    }

    /** The names that occur in some successor list. */
    method ChildNames() returns (names: set<Name>)
      requires Valid()
      ensures forall n :: n in names <==> HasParent(nodes, n)
    {
      names := {};
      for i := 0 to |order|
        invariant forall n :: n in names <==> exists j :: 0 <= j < i && order[j] in nodes && n in nodes[order[j]].next
      {
        assert order[i] in Elements(order);
        names := names + Elements(nodes[order[i]].next);
      }
      forall n | HasParent(nodes, n) ensures n in names {
        var m :| m in nodes && n in nodes[m].next;
        assert m in Elements(order);
      }
    }

    /** The names other than `own`, in order, that no node lists as a successor. */
    method NamesWithoutParents(own: Name) returns (names: seq<Name>)
      requires Valid()
      ensures Distinct(names) && names == ParentlessIn(nodes, order, own)
      ensures forall m :: m in names <==> m in nodes && m != own && !HasParent(nodes, m)
    {
      var childNames := ChildNames();
      names := [];
      for i := 0 to |order|
        invariant names == ParentlessIn(nodes, order[..i], own)
      {
        NextName(nodes, order, i, own);
        if order[i] !in childNames && order[i] != own {
          names := names + [order[i]];
        }
      }
      assert order[..|order|] == order;
      ParentlessMembers(nodes, order, own);
      assert forall m :: m in order <==> m in Elements(order);
    }

    method NamesWithoutChildren(own: Name) returns (names: seq<Name>)
      requires Valid()
      ensures Distinct(names) && names == ChildlessIn(nodes, order, own)
      ensures forall m :: m in names <==> m in nodes && m != own && nodes[m].next == []
    {
      names := [];
      for i := 0 to |order|
        invariant names == ChildlessIn(nodes, order[..i], own)
      {
        assert order[i] in Elements(order);
        NextName(nodes, order, i, own);
        if nodes[order[i]].next == [] && order[i] != own {
          names := names + [order[i]];
        }
      }
      assert order[..|order|] == order;
      ChildlessMembers(nodes, order, own);
      assert forall m :: m in order <==> m in Elements(order);
    }

    method LinkStart(start: Service, names: seq<Name>)
      requires Valid() && start.name in nodes && nodes[start.name] == Node(start, [], [])
      requires Distinct(names) && forall m :: m in names ==> m in nodes && m != start.name
      modifies this
      ensures Valid() && order == old(order) && nodes.Keys == old(nodes).Keys
      ensures nodes[start.name] == Node(start, [], names)
      ensures forall m :: m in old(nodes) && m != start.name ==>
        nodes[m] == if m in names then old(nodes)[m].(prev := old(nodes)[m].prev + [start.name]) else old(nodes)[m]
    {
      for i := 0 to |names|
        invariant Valid() && order == old(order) && nodes.Keys == old(nodes).Keys
        invariant nodes[start.name] == Node(start, [], names[..i])
        invariant forall m :: m in old(nodes) && m != start.name ==>
          nodes[m] == if m in names[..i] then old(nodes)[m].(prev := old(nodes)[m].prev + [start.name])
            else old(nodes)[m]
      {
        assert names[i] in names && names[i] !in names[..i];
        assert names[..i + 1] == names[..i] + [names[i]];
        AddEdge(start, nodes[names[i]].service);
      }
      assert names[..|names|] == names;
    }

    method LinkEnd(end: Service, names: seq<Name>)
      requires Valid() && end.name in nodes && nodes[end.name] == Node(end, [], [])
      requires Distinct(names) && forall m :: m in names ==> m in nodes && m != end.name && nodes[m].next == []
      modifies this
      ensures Valid() && order == old(order) && nodes.Keys == old(nodes).Keys
      ensures nodes[end.name] == Node(end, names, [])
      ensures forall m :: m in old(nodes) && m != end.name ==>
        nodes[m] == if m in names then old(nodes)[m].(next := [end.name]) else old(nodes)[m]
    {
      for i := 0 to |names|
        invariant Valid() && order == old(order) && nodes.Keys == old(nodes).Keys
        invariant nodes[end.name] == Node(end, names[..i], [])
        invariant forall m :: m in old(nodes) && m != end.name ==>
          nodes[m] == if m in names[..i] then old(nodes)[m].(next := [end.name]) else old(nodes)[m]
      {
        assert names[i] in names && names[i] !in names[..i];
        assert names[..i + 1] == names[..i] + [names[i]];
        AddEdge(nodes[names[i]].service, end);
      }
      assert names[..|names|] == names;
    }

    method AddStartNode(start: Service) returns (ok: bool)
      requires Valid()
      modifies this
      ensures Valid()
      ensures ok <==> start.name !in old(nodes)
      ensures ok ==> StartAdded(old(nodes), start, nodes) && order == old(order) + [start.name]
      ensures ok ==> nodes[start.name].next == ParentlessIn(old(nodes), old(order), start.name)
    {
      ghost var before := nodes;
      ok := AddNode(Node(start, [], []));
      if ok {
        var names := NamesWithoutParents(start.name);
        OwnIsNeither(before, old(order), start, nodes);
        ParentlessBefore(before, start, nodes, names);
        LinkStart(start, names);
        StartLinked(before, start, names, nodes);
      }
    }

    method AddEndNode(end: Service) returns (ok: bool)
      requires Valid()
      modifies this
      ensures Valid()
      ensures ok <==> end.name !in old(nodes)
      ensures ok ==> EndAdded(old(nodes), end, nodes) && order == old(order) + [end.name]
      ensures ok ==> nodes[end.name].prev == ChildlessIn(old(nodes), old(order), end.name)
    {
      ghost var before := nodes;
      ok := AddNode(Node(end, [], []));
      if ok {
        var names := NamesWithoutChildren(end.name);
        OwnIsNeither(before, old(order), end, nodes);
        assert AreChildless(before, names);
        LinkEnd(end, names);
      }
    }
  }

  lemma ParentlessBefore(before: Nodes, s: Service, after: Nodes, names: seq<Name>)
    requires s.name !in before && after == before[s.name := Node(s, [], [])]
    requires Distinct(names) && forall m :: m in names <==> m in after && m != s.name && !HasParent(after, m)
    ensures AreParentless(before, names)
  {
    IsolatedParents(before, s, after);
  }

  /** A node without neighbours is nobody's parent. */
  lemma IsolatedParents(before: Nodes, s: Service, after: Nodes)
    requires s.name !in before && after == before[s.name := Node(s, [], [])]
    ensures forall n :: HasParent(after, n) <==> HasParent(before, n)
  {
    forall n ensures HasParent(after, n) <==> HasParent(before, n) {
      if HasParent(after, n) {
        var m :| m in after && n in after[m].next;
        assert m in before && n in before[m].next;
      }
      if HasParent(before, n) {
        var m :| m in before && n in before[m].next;
        assert m in after && n in after[m].next;
      }
    }
  }
}
