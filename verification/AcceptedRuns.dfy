/** Which accepted dictionaries give graphs on which every loss-free run enters every service exactly once. */
module AcceptedRuns {
  import opened Graphs
  import opened Wrappers
  import opened Dags
  import opened DagExtraction
  import opened Lca
  import opened LcaExact
  import opened Protocol
  import opened RunInvariant
  import opened JoinSafety
  import opened OnceIff
  import opened LostJoints

  /**
   A node some node lists as a successor lists each predecessor once and not the start; a node nobody lists as
   a successor lists at most the start.
   */
  ghost predicate TidyNode(o0: Nodes, n: Name)
    requires n in o0
  {
    if HasParent(o0, n) then Distinct(o0[n].prev) && START !in o0[n].prev else Elements(o0[n].prev) <= {START}
  }

  ghost predicate Tidy(o0: Nodes) {
    forall n {:trigger TidyNode(o0, n)} :: n in o0 ==> TidyNode(o0, n)
  }

  ghost function ConfigOf(nodes: Nodes, lca: map<(Name, Name), Name>): Config {
    Config(Next(nodes), Prev(nodes), lca)
  }

  /** The predecessors in the graph are the sources of the meant edges. */
  lemma PrevMeant(o0: Nodes, nodes: Nodes, a: Name, b: Name)
    requires Inverse(Next(nodes), Prev(nodes)) && AsMeant(o0, nodes) && b in nodes
    ensures a in nodes[b].prev <==> MeantEdge(o0, a, b)
  {
    assert a in nodes[b].prev <==> Edge(Prev(nodes), b, a);
    assert Edge(Next(nodes), a, b) <==> MeantEdge(o0, a, b);
  }

  /** Climbing from any node of the dictionary ends at one that nobody lists. */
  lemma {:induction false} Parentless(o0: Nodes, nodes: Nodes, n: Name) returns (top: Name)
    requires Normalised(nodes) && AsMeant(o0, nodes) && n in o0
    requires Closed(Prev(nodes)) && Acyclic(Prev(nodes))
    ensures top in o0 && !HasParent(o0, top)
    decreases Rank(Prev(nodes), n)
  {
    if HasParent(o0, n) {
      var m :| m in o0 && n in o0[m].next;
      PrevMeant(o0, nodes, m, n);
      assert Edge(Prev(nodes), n, m);
      RankDrops(Prev(nodes), n, m);
      top := Parentless(o0, nodes, m);
    } else {
      top := n;
    }
  }

  /** The end follows the start only if there is nothing else. */
  lemma EndIsClean(o0: Nodes, nodes: Nodes, c: Config)
    requires START !in o0 && END !in o0 && Normalised(nodes) && AsMeant(o0, nodes)
    requires c.next == Next(nodes) && c.prev == Prev(nodes)
    ensures CleanPrev(c, END)
  {
    InverseClosed(Next(nodes), Prev(nodes));
    InverseAcyclic(Next(nodes), Prev(nodes));
    PrevMeant(o0, nodes, START, END);
    if n :| n in o0 {
      var top := Parentless(o0, nodes, n);
    } else {
      forall a | a in nodes[END].prev ensures a == START {
        PrevMeant(o0, nodes, a, END);
      }
    }
  }

  /** A node some node lists keeps its list, a node nobody lists gets the start in addition. */
  lemma CleanIsTidy(o0: Nodes, nodes: Nodes, c: Config, n: Name)
    requires START !in o0 && END !in o0 && Normalised(nodes) && AsMeant(o0, nodes) && n in o0
    requires c.next == Next(nodes) && c.prev == Prev(nodes)
    ensures CleanPrev(c, n) <==> TidyNode(o0, n)
  {
    PrevMeant(o0, nodes, START, n);
    if HasParent(o0, n) {
      var m :| m in o0 && n in o0[m].next;
      PrevMeant(o0, nodes, m, n);
      assert m in Elements(nodes[n].prev) && m != START;
    } else {
      forall a | a != START ensures a in nodes[n].prev <==> a in o0[n].prev {
        PrevMeant(o0, nodes, a, n);
      }
      assert Elements(nodes[n].prev) <= {START} <==> Elements(o0[n].prev) <= {START};
    }
  }

  lemma AllCleanIsTidy(o0: Nodes, nodes: Nodes, c: Config)
    requires START !in o0 && END !in o0 && Normalised(nodes) && AsMeant(o0, nodes)
    requires c.next == Next(nodes) && c.prev == Prev(nodes)
    ensures AllClean(c) <==> Tidy(o0)
  {
    forall n | n in o0 ensures CleanPrev(c, n) <==> TidyNode(o0, n) {
      CleanIsTidy(o0, nodes, c, n);
    }
    EndIsClean(o0, nodes, c);
  }

  // ----- the search the merges use -----

  /** What the table of the search holds for a pair: its answer, or nothing where it raises. */
  ghost predicate PairAnswered(c: Config, u: Name, v: Name) {
    LcaAnswer(c.next, c.prev, u, v, if (u, v) in c.lca then Some(c.lca[(u, v)]) else None)
  }

  /** The table is what the common-ancestor search answers on the graph. */
  ghost predicate SearchTable(c: Config) {
    forall u, v {:trigger (u, v)} :: u in c.next && v in c.next ==> PairAnswered(c, u, v)
  }

  /** Every acyclic graph has such a table. */
  lemma TableExists(next: Graph, prev: Graph) returns (lca: map<(Name, Name), Name>)
    requires Inverse(next, prev) && Acyclic(next)
    ensures SearchTable(Config(next, prev, lca))
  {
    lca := map u, v | u in next && v in next && Answered(next, prev, u, v) :: (u, v) := AnswerOf(next, prev, u, v);
    var c := Config(next, prev, lca);
    forall u, v | u in next && v in next ensures PairAnswered(c, u, v) {
      var r := SomeAnswer(next, prev, u, v);
      assert r.Some? ==> LcaAnswer(next, prev, u, v, Some(r.value));
    }
  }

  ghost predicate Answered(next: Graph, prev: Graph, u: Name, v: Name) {
    exists x :: LcaAnswer(next, prev, u, v, Some(x))
  }

  ghost function AnswerOf(next: Graph, prev: Graph, u: Name, v: Name): (x: Name)
    requires Answered(next, prev, u, v)
    ensures LcaAnswer(next, prev, u, v, Some(x))
  {
    var x :| LcaAnswer(next, prev, u, v, Some(x));
    x
  }

  /**
   One node is above the other, or the one with fewer ancestors shares some with what the other's order meets in
   time.
   */
  ghost predicate Found(c: Config, u: Name, v: Name) {
    Reach(c.next, u, v) || Reach(c.next, v, u) || !Missed(c.prev, u, v)
  }

  /** Read off the graph: whoever can be last at a joint is found with every predecessor. */
  ghost predicate LastFound(c: Config) {
    forall j, u {:trigger CanBeLast(c, u, j)} ::
      CanBeLast(c, u, j) && |c.prev[j]| > 1 && START !in c.prev[j] ==> forall v :: v in c.prev[j] ==> Found(c, u, v)
  }

  lemma AnsweredIffFound(c: Config, u: Name, v: Name)
    requires Inverse(c.next, c.prev) && SearchTable(c) && u in c.next && v in c.next
    ensures (u, v) in c.lca <==> Found(c, u, v)
  {
    var r := if (u, v) in c.lca then Some(c.lca[(u, v)]) else None;
    assert PairAnswered(c, u, v);
    RaisesIff(c.next, c.prev, u, v, r);
  }

  lemma MergesIffFound(c: Config)
    requires Inverse(c.next, c.prev) && SearchTable(c)
    ensures LastMerges(c) <==> LastFound(c)
  {
    InverseClosed(c.next, c.prev);
    forall j, u | CanBeLast(c, u, j)
      ensures MergesAll(c, u, j) <==> forall v :: v in c.prev[j] ==> Found(c, u, v)
    {
      assert Edge(c.prev, j, u);
      forall v | v in c.prev[j] ensures (u, v) in c.lca <==> Found(c, u, v) {
        assert Edge(c.prev, j, v);
        AnsweredIffFound(c, u, v);
      }
    }
  }

  /**
   An accepted dictionary gives exactly-once runs if and only if it is tidy, and whoever can be last at a joint is
   found with every other predecessor by the common-ancestor search.
   */
  lemma OnceIffTidy(o0: Nodes, nodes: Nodes, lca: map<(Name, Name), Name>)
    requires START !in o0 && END !in o0 && Normalised(nodes) && AsMeant(o0, nodes) && SearchTable(ConfigOf(nodes, lca))
    ensures EveryRunOnce(ConfigOf(nodes, lca)) <==> Tidy(o0) && LastFound(ConfigOf(nodes, lca))
  {
    var c := ConfigOf(nodes, lca);
    MergesIffFound(c);
    AllCleanIsTidy(o0, nodes, c);
    OnceIffMerging(c);
  }
}
