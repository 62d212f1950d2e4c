/** Forking a task along the graph, and merging the results of a parallel branch into it. */
module TaskMerge {
  import opened Graphs
  import opened Wrappers
  import opened Dags
  import opened DagExtraction
  import opened Lca
  import opened IntermediateNodes

  type Uuid = nat

  /** What a merge copies: everything strictly between the common ancestor and the other branch, and its end. */
  ghost function MergeSet(next: Graph, lca: Name, other: Name): set<Name> {
    Between(next, lca, other) + {other}
  }

  /** `nodes` with the services of `copied` taken from `other`. */
  ghost function MergedNodes(nodes: Nodes, other: Nodes, copied: set<Name>): Nodes
    requires nodes.Keys == other.Keys
  {
    map n | n in nodes :: if n in copied then nodes[n].(service := other[n].service) else nodes[n]
  }

  class Task {
    var uuid: Uuid
    var parentUuid: Uuid
    var rootUuid: Uuid
    var flowIndex: Name
    var pastFlowIndex: Option<Name>
    var order: seq<Name>
    var nodes: Nodes

    ghost predicate Valid()
      reads this
    {
      Validated(nodes) && NamedByService(nodes) && Elements(order) == nodes.Keys
    }

    ghost predicate HasPast()
      reads this
    {
      pastFlowIndex.Some? && pastFlowIndex.value in nodes
    }

    constructor (uuid: Uuid, parentUuid: Uuid, rootUuid: Uuid, flowIndex: Name, pastFlowIndex: Option<Name>,
                 order: seq<Name>, nodes: Nodes)
      ensures this.uuid == uuid && this.parentUuid == parentUuid && this.rootUuid == rootUuid
      ensures this.flowIndex == flowIndex && this.pastFlowIndex == pastFlowIndex
      ensures this.order == order && this.nodes == nodes
    {
      this.uuid, this.parentUuid, this.rootUuid := uuid, parentUuid, rootUuid;
      this.flowIndex, this.pastFlowIndex := flowIndex, pastFlowIndex;
      this.order, this.nodes := order, nodes;
    }

    /** A copy under a new uuid, moved to `newFlowIndex` unless that is empty or where the task already is. */
    method ForkTask(newFlowIndex: Name, freshUuid: Uuid) returns (task: Task)
      ensures fresh(task)
      ensures task.uuid == freshUuid && task.parentUuid == uuid && task.rootUuid == rootUuid
      ensures task.nodes == nodes && task.order == order
      ensures if newFlowIndex != "" && newFlowIndex != flowIndex
              then task.flowIndex == newFlowIndex && task.pastFlowIndex == Some(flowIndex)
              else task.flowIndex == flowIndex && task.pastFlowIndex == pastFlowIndex
    {
      task := new Task(uuid, parentUuid, rootUuid, flowIndex, pastFlowIndex, order, nodes);
      if newFlowIndex != "" && newFlowIndex != flowIndex {
        task.pastFlowIndex := Some(flowIndex);
        task.flowIndex := newFlowIndex;
      }
      task.uuid := freshUuid;
      task.parentUuid := uuid;
    }

    /** Completes this task with what the other branch produced since the two parted. */
    method MergeTask(other: Task) returns (r: Result<Name, LcaError>)
      requires Valid() && other.Valid() && other.nodes.Keys == nodes.Keys && other != this
      modifies this`nodes
      ensures nodes.Keys == old(nodes).Keys && Next(nodes) == Next(old(nodes)) && Prev(nodes) == Prev(old(nodes))
      ensures r == Failure(NoSuchNode) <==> !(HasPast() && other.HasPast())
      ensures HasPast() && other.HasPast() ==>
        LcaAnswer(Next(old(nodes)), Prev(old(nodes)), pastFlowIndex.value, other.pastFlowIndex.value,
                  if r.Success? then Some(r.value) else None)
      ensures r.Failure? ==> nodes == old(nodes)
      ensures r.Success? ==>
        nodes == MergedNodes(old(nodes), old(other.nodes),
          MergeSet(Next(old(nodes)), r.value, other.pastFlowIndex.value))
    {
      if pastFlowIndex == None || other.pastFlowIndex == None {
        return Failure(NoSuchNode);
      }
      var mine, theirs := pastFlowIndex.value, other.pastFlowIndex.value;
      r := FindMeeting(mine, theirs);
      if r.Failure? {
        return;
      }
      var copied := ServicesBetween(mine, theirs, r.value);
      CopyServices(other.nodes, copied);
    }

    /** Where the two branches parted, by the common-ancestor search on this task's graph. */
    method FindMeeting(mine: Name, theirs: Name) returns (r: Result<Name, LcaError>)
      requires Valid()
      ensures r == Failure(NoSuchNode) <==> mine !in nodes || theirs !in nodes
      ensures mine in nodes && theirs in nodes ==>
        LcaAnswer(Next(nodes), Prev(nodes), mine, theirs, if r.Success? then Some(r.value) else None)
    {
      var solver := new LCASolver(order, Next(nodes), Prev(nodes));
      r := solver.FindLca(mine, theirs);
    }

    /** The services a merge copies: those between the meeting and the other branch's end, and that end. */
    method ServicesBetween(mine: Name, theirs: Name, lca: Name) returns (copied: set<Name>)
      requires Valid() && mine in nodes && theirs in nodes
      requires LcaAnswer(Next(nodes), Prev(nodes), mine, theirs, Some(lca))
      ensures copied == MergeSet(Next(nodes), lca, theirs) && copied <= nodes.Keys
    {
      var next, prev := Next(nodes), Prev(nodes);
      AnswerIsCommonAncestor(next, prev, mine, theirs, lca);
      InverseClosed(next, prev);
      ReachNodes(next, lca, theirs);
      var between := GetIntermediateNodes(next, prev, lca, theirs);
      return between.value + {theirs};
    }

    method CopyServices(given: Nodes, copied: set<Name>)
      requires given.Keys == nodes.Keys && copied <= nodes.Keys
      modifies this`nodes
      ensures nodes == MergedNodes(old(nodes), given, copied)
      ensures Next(nodes) == Next(old(nodes)) && Prev(nodes) == Prev(old(nodes))
    {
      var todo := copied;
      while todo != {}
        invariant todo <= copied && nodes == MergedNodes(old(nodes), given, copied - todo)
        decreases todo
      {
        var n :| n in todo;
        nodes := nodes[n := nodes[n].(service := given[n].service)];
        todo := todo - {n};
      }
      assert copied - todo == copied;
      SameLists(old(nodes), given, copied);
    }
  }

  /** Copying services leaves the lists alone. */
  lemma SameLists(nodes: Nodes, other: Nodes, copied: set<Name>)
    requires nodes.Keys == other.Keys
    ensures Next(MergedNodes(nodes, other, copied)) == Next(nodes)
    ensures Prev(MergedNodes(nodes, other, copied)) == Prev(nodes)
  {
  }

  // ----- which results survive a merge -----

  /** The services whose entry in `nodes` is the one their run produced. */
  ghost function Held(nodes: Nodes, truth: map<Name, Service>): set<Name> {
    set n | n in nodes && n in truth && nodes[n].service == truth[n]
  }

  /** Everything a merge overwrites lies above the other branch's end, or is that end. */
  lemma OverwritesOnlyAncestors(next: Graph, prev: Graph, lca: Name, v: Name)
    requires Inverse(next, prev) && v in next
    ensures MergeSet(next, lca, v) <= Ancestors(prev, v)
  {
    ReachSelf(prev, v);
    forall m | m in Between(next, lca, v) ensures m in Ancestors(prev, v) {
      InverseReach(next, prev, m, v);
    }
  }

  /** What is held after a merge: copied services as the other branch holds them, the rest as before. */
  lemma HeldAfterMerge(nodes: Nodes, other: Nodes, truth: map<Name, Service>, copied: set<Name>)
    requires nodes.Keys == other.Keys
    ensures Held(MergedNodes(nodes, other, copied), truth) ==
      (Held(nodes, truth) - copied) + (Held(other, truth) * copied)
  {
  }

  /**
   When each task holds exactly what lies on or above its own past service, the merged task holds both
   branches if and only if the common ancestor reaches whatever the first branch does not have itself.
   */
  lemma MergeCompleteIff(next: Graph, prev: Graph, nodes: Nodes, other: Nodes, truth: map<Name, Service>,
                         u: Name, v: Name, lca: Name)
    requires Inverse(next, prev) && Acyclic(next) && next.Keys == nodes.Keys == other.Keys && u in next && v in next
    requires LcaAnswer(next, prev, u, v, Some(lca))
    requires Held(nodes, truth) == Ancestors(prev, u) && Held(other, truth) == Ancestors(prev, v)
    ensures var merged := MergedNodes(nodes, other, MergeSet(next, lca, v));
      (Held(merged, truth) == Ancestors(prev, u) + Ancestors(prev, v) <==>
       forall a :: a in Ancestors(prev, v) && a !in Ancestors(prev, u) ==> Reach(next, lca, a))
  {
    var copied := MergeSet(next, lca, v);
    HeldAfterMerge(nodes, other, truth, copied);
    OverwritesOnlyAncestors(next, prev, lca, v);
    AnswerIsCommonAncestor(next, prev, u, v, lca);
    InverseReach(next, prev, lca, u);
    InverseReach(next, prev, lca, v);
    InverseClosed(next, prev);
    ReachNodes(next, lca, v);
    forall a | a in Ancestors(prev, v) && a !in Ancestors(prev, u) ensures a in copied <==> Reach(next, lca, a) {
      InverseReach(next, prev, a, v);
      assert a != lca;
      if a == v {
        assert Reach(next, lca, v);
      }
    }
  }

  // `_start` leads to `p` and `q`, both to `q2`; `p` and `q2` lead to `j`.
  const SIDE_NEXT: Graph := map[
    "_start" := ["p", "q"], "p" := ["q2", "j"], "q" := ["q2"], "q2" := ["j"], "j" := []]

  const SIDE_PREV: Graph := map[
    "_start" := [], "p" := ["_start"], "q" := ["_start"], "q2" := ["p", "q"], "j" := ["q2", "p"]]

  /** A merge can lose a result: merging the task from `q2` into the one from `p` does not bring `q` along. */
  lemma MergeCanDrop(nodes: Nodes, other: Nodes, truth: map<Name, Service>, lca: Name)
    requires SIDE_NEXT.Keys == nodes.Keys == other.Keys
    requires LcaAnswer(SIDE_NEXT, SIDE_PREV, "p", "q2", Some(lca))
    requires Held(nodes, truth) == Ancestors(SIDE_PREV, "p") && Held(other, truth) == Ancestors(SIDE_PREV, "q2")
    ensures Inverse(SIDE_NEXT, SIDE_PREV) && Acyclic(SIDE_NEXT)
    ensures lca == "p" && "q" in Held(other, truth)
    ensures "q" !in Held(MergedNodes(nodes, other, MergeSet(SIDE_NEXT, lca, "q2")), truth)
  {
    SideShape();
    PApart();
    HeldAfterMerge(nodes, other, truth, MergeSet(SIDE_NEXT, lca, "q2"));
  }

  lemma SideInverse()
    ensures Inverse(SIDE_NEXT, SIDE_PREV)
  {
    assert SIDE_NEXT.Keys == SIDE_PREV.Keys;
  }

  lemma SideShape()
    ensures Inverse(SIDE_NEXT, SIDE_PREV) && Closed(SIDE_NEXT) && Closed(SIDE_PREV) && Acyclic(SIDE_NEXT)
    ensures Reach(SIDE_NEXT, "p", "q2") && Reach(SIDE_PREV, "q2", "q")
  {
    SideInverse();
    InverseClosed(SIDE_NEXT, SIDE_PREV);
    RankedIsAcyclic(SIDE_NEXT, map["_start" := 3, "p" := 2, "q" := 2, "q2" := 1, "j" := 0]);
    ReachEdge(SIDE_NEXT, "p", "q2");
    ReachEdge(SIDE_PREV, "q2", "q");
  }

  lemma PApart()
    ensures !Reach(SIDE_NEXT, "p", "q") && "q" !in Ancestors(SIDE_PREV, "p")
  {
    var next, prev := SIDE_NEXT, SIDE_PREV;
    forall u, v | u in {"p", "q2", "j"} && Edge(next, u, v) ensures v in {"p", "q2", "j"} {
    }
    if Reach(next, "p", "q") {
      ReachStaysIn(next, {"p", "q2", "j"}, "p", "q");
    }
    if Reach(prev, "p", "q") {
      ReachStaysIn(prev, {"p", "_start"}, "p", "q");
    }
  }
}
