/** Linear service graphs: recognising them, and converting to and from lists of stages. */
module Pipeline {
  import opened Graphs
  import opened Wrappers
  import opened Dags
  import opened DagValidation

  /** `p` holds every node once, from the start to the end, each leading to the next one only. */
  ghost predicate IsChain(nodes: Nodes, p: seq<Name>) {
    && |p| >= 2 && p[0] == START && p[|p| - 1] == END
    && Distinct(p) && Elements(p) == nodes.Keys
    && forall i :: 0 <= i < |p| ==> ChainLinks(nodes, p, i)
  }

  ghost predicate ChainLinks(nodes: Nodes, p: seq<Name>, i: int)
    requires 0 <= i < |p|
  {
    && p[i] in nodes
    && nodes[p[i]].next == (if i < |p| - 1 then [p[i + 1]] else [])
    && nodes[p[i]].prev == (if i > 0 then [p[i - 1]] else [])
  }

  /** The walk so far: all but the last node passed the checks of the loop. */
  ghost predicate Walked(nodes: Nodes, p: seq<Name>) {
    && p != [] && p[0] == START && Distinct(p[..|p| - 1]) && (forall n :: n in p ==> n in nodes)
    && forall i :: 0 <= i < |p| - 1 ==> WalkLink(nodes, p, i)
  }

  ghost predicate WalkLink(nodes: Nodes, p: seq<Name>, i: int)
    requires 0 <= i < |p| - 1
  {
    && p[i] in nodes && p[i] != END
    && nodes[p[i]].next == [p[i + 1]] && |nodes[p[i]].prev| <= 1
  }

  /** The chain, if there is one, goes the way of the walk. */
  lemma {:induction false} ChainFollowsWalk(nodes: Nodes, p: seq<Name>, q: seq<Name>)
    requires Walked(nodes, p) && IsChain(nodes, q)
    ensures p <= q
    decreases |p|
  {
    assert ChainLinks(nodes, q, 0);
    if |p| > 1 {
      var r := p[..|p| - 1];
      forall i | 0 <= i < |r| - 1 ensures WalkLink(nodes, r, i) {
        assert WalkLink(nodes, p, i);
      }
      assert r[..|r| - 1] == p[..|p| - 1][..|p| - 2];
      ChainFollowsWalk(nodes, r, q);
      assert WalkLink(nodes, p, |p| - 2);
      assert ChainLinks(nodes, q, |p| - 2);
      assert q[|p| - 2] == p[|p| - 2];
    }
  }

  /** A finished walk over all nodes is a chain. */
  lemma WalkIsChain(nodes: Nodes, p: seq<Name>)
    requires Inverse(Next(nodes), Prev(nodes)) && Walked(nodes, p) && p[|p| - 1] == END
    requires |nodes[END].prev| == 1 && nodes[END].next == [] && Elements(p) == nodes.Keys && START != END
    ensures IsChain(nodes, p)
  {
    assert |p| >= 2;
    forall i | 0 <= i < |p| - 1 ensures p[i] != END {
      assert WalkLink(nodes, p, i);
    }
    forall i, j | 0 <= i < j < |p| ensures p[i] != p[j] {
      if j < |p| - 1 {
        assert p[..|p| - 1][i] != p[..|p| - 1][j];
      }
    }
    forall i | 0 <= i < |p| ensures ChainLinks(nodes, p, i) {
      if i > 0 {
        assert WalkLink(nodes, p, i - 1);
        assert Edge(Next(nodes), p[i - 1], p[i]);
        assert Edge(Prev(nodes), p[i], p[i - 1]);
        assert i == |p| - 1 || WalkLink(nodes, p, i);
      } else {
        assert WalkLink(nodes, p, 0);
        if nodes[START].prev != [] {
          SourceOfWalk(nodes, p);
        }
      }
    }
  }

  /** Nothing leads to the first node of a finished walk: every node's only successor is the next one. */
  lemma SourceOfWalk(nodes: Nodes, p: seq<Name>)
    requires Inverse(Next(nodes), Prev(nodes)) && Walked(nodes, p) && p[|p| - 1] == END && |p| >= 2
    requires nodes[END].next == [] && Elements(p) == nodes.Keys && Distinct(p)
    ensures nodes[START].prev == []
  {
    forall x | x in nodes ensures START !in nodes[x].next {
      assert x in Elements(p);
      var i :| 0 <= i < |p| && p[i] == x;
      assert i == |p| - 1 || WalkLink(nodes, p, i);
    }
    forall x ensures x !in nodes[START].prev {
      assert Edge(Prev(nodes), START, x) <==> Edge(Next(nodes), x, START);
    }
    FirstElement(nodes[START].prev);
  }

  method CheckIsPipeline(dag: DAG) returns (r: Result<bool, DagError>)
    requires dag.Valid() && Inverse(Next(dag.nodes), Prev(dag.nodes))
    ensures START !in dag.nodes || END !in dag.nodes ==> r == Failure(MissingEndpoint)
    ensures START in dag.nodes && END in dag.nodes ==> r.Success? && (r.value <==> exists p :: IsChain(dag.nodes, p))
  {
    var nodes := dag.nodes;
    if START !in nodes || END !in nodes {
      return Failure(MissingEndpoint);
    }
    InverseClosed(Next(nodes), Prev(nodes));
    var visited: set<Name> := {};
    var current := START;
    ghost var p := [START];
    while current != END
      invariant Walked(nodes, p) && current == p[|p| - 1] && current in nodes
      invariant visited == Elements(p[..|p| - 1]) && visited <= nodes.Keys
      decreases nodes.Keys - visited
    {
      if current in visited {
        NoChainRevisits(nodes, p);
        return Success(false);
      }
      visited := visited + {current};
      if |nodes[current].next| != 1 || |nodes[current].prev| > 1 {
        NoChainBranches(nodes, p);
        return Success(false);
      }
      var next := nodes[current].next[0];
      assert Edge(Next(nodes), current, next);
      assert Edge(Prev(nodes), next, current);
      if current !in nodes[next].prev {
        return Success(false);
      }
      WalkOn(nodes, p, next);
      p := p + [next];
      current := next;
    }
    FinishedWalk(nodes, p);
    if |nodes[END].prev| != 1 || |nodes[END].next| != 0 {
      return Success(false);
    }
    visited := visited + {END};
    SubsetSize(visited, nodes.Keys);
    SizeOfKeys(dag.order, nodes.Keys);
    return Success(|visited| == |dag.order|);
  }

  /** One more node passed the checks. */
  lemma WalkOn(nodes: Nodes, p: seq<Name>, next: Name)
    requires Walked(nodes, p) && p[|p| - 1] !in p[..|p| - 1] && p[|p| - 1] != END && next in nodes
    requires nodes[p[|p| - 1]].next == [next] && |nodes[p[|p| - 1]].prev| <= 1
    ensures Walked(nodes, p + [next])
    ensures (p + [next])[..|p + [next]| - 1] == p && Elements(p) == Elements(p[..|p| - 1]) + {p[|p| - 1]}
  {
    var longer, last := p + [next], |p| - 1;
    assert longer[..|p|] == p == p[..last] + [p[last]];
    forall i | 0 <= i < |p| ensures WalkLink(nodes, longer, i) {
      assert i == last || WalkLink(nodes, p, i);
    }
    forall i, j | 0 <= i < j < |p| ensures p[i] != p[j] {
      assert p[i] == p[..last][i];
    }
  }

  /**
   A walk that has come to the end is the chain if it met every node and nothing else leads to or from the end;
   else there is none.
   */
  lemma FinishedWalk(nodes: Nodes, p: seq<Name>)
    requires Inverse(Next(nodes), Prev(nodes)) && Walked(nodes, p) && p[|p| - 1] == END && START != END
    ensures Elements(p) == Elements(p[..|p| - 1]) + {END}
    ensures (exists q :: IsChain(nodes, q)) <==>
      |nodes[END].prev| == 1 && |nodes[END].next| == 0 && Elements(p) == nodes.Keys
  {
    assert p == p[..|p| - 1] + [END];
    forall q | IsChain(nodes, q) ensures q == p && ChainLinks(nodes, q, |q| - 1) {
      ChainFollowsWalk(nodes, p, q);
      assert q[|p| - 1] == q[|q| - 1];
    }
    if |nodes[END].prev| == 1 && |nodes[END].next| == 0 && Elements(p) == nodes.Keys {
      WalkIsChain(nodes, p);
    }
  }

  lemma NoChainRevisits(nodes: Nodes, p: seq<Name>)
    requires Walked(nodes, p) && p[|p| - 1] in p[..|p| - 1]
    ensures !exists q :: IsChain(nodes, q)
  {
    forall q | IsChain(nodes, q) ensures false {
      ChainFollowsWalk(nodes, p, q);
    }
  }

  lemma FirstElement(s: seq<Name>)
    ensures s != [] ==> s[0] in s
  {
  }

  lemma ChainGoesOn(nodes: Nodes, p: seq<Name>, q: seq<Name>)
    requires Walked(nodes, p) && p[|p| - 1] in nodes && p[|p| - 1] != END && IsChain(nodes, q)
    ensures |nodes[p[|p| - 1]].next| == 1 && |nodes[p[|p| - 1]].prev| <= 1
  {
    ChainFollowsWalk(nodes, p, q);
    assert ChainLinks(nodes, q, |p| - 1);
    assert q[|p| - 1] == p[|p| - 1];
  }

  lemma NoChainBranches(nodes: Nodes, p: seq<Name>)
    requires Walked(nodes, p) && p[|p| - 1] in nodes && p[|p| - 1] != END
    requires |nodes[p[|p| - 1]].next| != 1 || |nodes[p[|p| - 1]].prev| > 1
    ensures !exists q :: IsChain(nodes, q)
  {
    forall q | IsChain(nodes, q) ensures false {
      ChainGoesOn(nodes, p, q);
    }
  }
}
