/**
 A normal graph, with the search as it is, on which loss-free runs deliver and every delivered task lacks a
 result.
 */
module AlwaysDropped {
  import opened Graphs
  import opened Wrappers
  import opened Dags
  import opened Lca
  import opened LcaExact
  import opened LcaCounterexamples
  import opened Protocol
  import opened RunInvariant
  import opened ExactlyOnce
  import opened OnceIff
  import opened AcceptedRuns
  import opened ResultsComplete
  import opened ResultsDropped

  // `_start` leads to `x`, `p` and `y`; `p` and `x` meet in `u`, `p` and `y` in `v`, and these in `_end`.
  const WIDE_NEXT: Graph := map[
    "_start" := ["p", "x", "y"], "p" := ["u", "v"], "x" := ["u"], "y" := ["v"],
    "u" := ["_end"], "v" := ["_end"], "_end" := []]

  const WIDE_PREV: Graph := map[
    "_start" := [], "p" := ["_start"], "x" := ["_start"], "y" := ["_start"],
    "u" := ["p", "x"], "v" := ["p", "y"], "_end" := ["u", "v"]]

  ghost function Wide(lca: map<(Name, Name), Name>): Config {
    Config(WIDE_NEXT, WIDE_PREV, lca)
  }

  lemma WideInverse()
    ensures Inverse(WIDE_NEXT, WIDE_PREV)
  {
    assert WIDE_NEXT.Keys == WIDE_PREV.Keys;
  }

  lemma WideShape()
    ensures Inverse(WIDE_NEXT, WIDE_PREV) && Closed(WIDE_NEXT) && Closed(WIDE_PREV) && Acyclic(WIDE_NEXT)
  {
    WideInverse();
    InverseClosed(WIDE_NEXT, WIDE_PREV);
    RankedIsAcyclic(WIDE_NEXT, map["_start" := 3, "p" := 2, "x" := 2, "y" := 2, "u" := 1, "v" := 1, "_end" := 0]);
  }

  // ----- the search on this graph -----

  lemma RoundToTwo(prev: Graph, n: Name, a: Name, b: Name)
    requires n in prev && prev[n] == [a, b] && a != b && a != n && b != n
    ensures Rounds(prev, n, 1) == Side([(a, 1), (b, 1)], map[n := 0, a := 1, b := 1]) && LevelAfter(prev, n, 1) == 0
  {
    assert Rounds(prev, n, 0) == Lca.Start(n);
    assert [a, b][..1] == [a] && [a][..0] == [];
    var popped := Side([], map[n := 0]);
    assert [(n, 0)][1..] == [];
    assert Rounds(prev, n, 1) == MeetAll(popped, [a, b], 1);
    assert MeetAll(popped, [], 1) == popped;
    assert MeetAll(popped, [a], 1) == Side([(a, 1)], map[n := 0, a := 1]);
    assert MeetAll(popped, [a, b], 1) == Side([(a, 1), (b, 1)], map[n := 0, a := 1, b := 1]);
  }

  lemma RoundToOne(prev: Graph, n: Name, a: Name)
    requires n in prev && prev[n] == [a]
    ensures a in Rounds(prev, n, 1).visited
  {
    assert Rounds(prev, n, 0) == Lca.Start(n);
    assert [a][..0] == [];
    assert a in MeetAll(Side([], map[n := 0]), [a], 1).visited;
  }

  /** A search whose sides first meet when the first one has completed its own level ends there. */
  lemma EndsAtOne(prev: Graph, a: Name, b: Name, k: nat)
    requires Common(prev, a, b, 0) == {} && Common(prev, a, b, 1) != {} && LastRound(prev, a, b) >= 1
    requires Rounds(prev, a, 1).queue != [] && Rounds(prev, a, 1).queue[0].1 > LevelAfter(prev, a, 1)
    ensures EndsAt(prev, a, b, k) <==> k == 1
  {
    assert StopsAt(prev, a, b, 1) && !StopsAt(prev, a, b, 0);
  }

  lemma SomeRound(prev: Graph, n: Name, m: Name)
    requires n in prev && m in prev
    ensures LastRound(prev, n, m) >= 1
  {
    ReachSelf(prev, n);
    ReachSelf(prev, m);
    assert n in Ancestors(prev, n) && m in Ancestors(prev, m);
  }

  lemma MetAfterOne(next: Graph, prev: Graph, n: Name, m: Name, a: Name)
    requires Inverse(next, prev) && n in prev && m in prev && a in Common(prev, n, m, 1)
    ensures Common(prev, n, m, LastRound(prev, n, m)) != {} && !Missed(prev, n, m)
  {
    InverseClosed(next, prev);
    SomeRound(prev, n, m);
    CommonGrows(prev, n, m, 1, LastRound(prev, n, m));
    MissedIsApart(prev, n, m);
  }

  lemma AboveSides()
    ensures Ancestors(WIDE_PREV, "u") <= {"u", "p", "x", "_start"} &&
      Ancestors(WIDE_PREV, "v") <= {"v", "p", "y", "_start"}
    ensures !Reach(WIDE_NEXT, "u", "v") && !Reach(WIDE_NEXT, "v", "u")
  {
    AncestorsWithin(WIDE_PREV, "u", {"u", "p", "x", "_start"});
    AncestorsWithin(WIDE_PREV, "v", {"v", "p", "y", "_start"});
    WideShape();
    InverseReach(WIDE_NEXT, WIDE_PREV, "u", "v");
    InverseReach(WIDE_NEXT, WIDE_PREV, "v", "u");
    assert "u" !in Ancestors(WIDE_PREV, "v") && "v" !in Ancestors(WIDE_PREV, "u");
  }

  /** Two nodes with one first parent in common and no other: the search ends there after one round. */
  lemma MeetInFirstParent(prev: Graph, a: Name, b: Name, p: Name, x: Name, y: Name, k: nat)
    requires a in prev && b in prev && prev[a] == [p, x] && prev[b] == [p, y] && LastRound(prev, a, b) >= 1
    requires a != b && x != y && p !in {a, b, x, y} && x !in {a, b} && y !in {a, b}
    ensures EndsAt(prev, a, b, k) <==> k == 1
    ensures Common(prev, a, b, 1) == {p}
  {
    RoundToTwo(prev, a, p, x);
    RoundToTwo(prev, b, p, y);
    assert Rounds(prev, a, 0).visited.Keys == {a} && Rounds(prev, b, 0).visited.Keys == {b};
    assert p in Common(prev, a, b, 1);
    EndsAtOne(prev, a, b, k);
  }

  lemma SidesEnd(a: Name, b: Name, k: nat)
    requires (a, b) in {("u", "v"), ("v", "u")}
    ensures EndsAt(WIDE_PREV, a, b, k) <==> k == 1
    ensures Common(WIDE_PREV, a, b, 1) == {"p"}
  {
    SomeRound(WIDE_PREV, a, b);
    if a == "u" {
      MeetInFirstParent(WIDE_PREV, "u", "v", "p", "x", "y", k);
    } else {
      MeetInFirstParent(WIDE_PREV, "v", "u", "p", "y", "x", k);
    }
  }

  /** The two branches into the end meet in `p`, whichever comes first. */
  lemma SidesMeetInP(a: Name, b: Name, r: Option<Name>)
    requires (a, b) in {("u", "v"), ("v", "u")} && LcaAnswer(WIDE_NEXT, WIDE_PREV, a, b, r)
    ensures r == Some("p")
  {
    AboveSides();
    SidesEnd(a, b, 1);
    WideInverse();
    MetAfterOne(WIDE_NEXT, WIDE_PREV, a, b, "p");
    var k :| EndsAt(WIDE_PREV, a, b, k) && DeepestOf(WIDE_NEXT, WIDE_PREV, Common(WIDE_PREV, a, b, k), r.value);
    SidesEnd(a, b, k);
  }

  lemma PairFound(lca: map<(Name, Name), Name>, n: Name, m: Name)
    requires (n in {"p", "x", "y"} && m in {"p", "x", "y"}) || (n in {"u", "v"} && m in {"u", "v"})
    ensures Found(Wide(lca), n, m)
  {
    if n == m {
      ReachSelf(WIDE_NEXT, n);
    } else if n in {"u", "v"} {
      SidesEnd(n, m, 1);
      WideInverse();
      MetAfterOne(WIDE_NEXT, WIDE_PREV, n, m, "p");
    } else {
      RoundToOne(WIDE_PREV, n, "_start");
      RoundToOne(WIDE_PREV, m, "_start");
      WideInverse();
      MetAfterOne(WIDE_NEXT, WIDE_PREV, n, m, "_start");
    }
  }

  lemma WideIsNormal(lca: map<(Name, Name), Name>)
    ensures NormalConfig(Wide(lca)) && AllClean(Wide(lca))
  {
    WideShape();
    WideLists();
    assert forall n :: n in WIDE_PREV && START in WIDE_PREV[n] ==> WIDE_PREV[n] == [START];
  }

  lemma WideLists()
    ensures forall n :: n in WIDE_NEXT ==> n in WIDE_PREV && Distinct(WIDE_NEXT[n]) && Distinct(WIDE_PREV[n])
    ensures forall n :: n in WIDE_NEXT ==>
      (WIDE_PREV[n] == [] <==> n == START) && (WIDE_NEXT[n] == [] <==> n == END)
  {
  }

  lemma WideJoints(lca: map<(Name, Name), Name>)
    ensures LastFound(Wide(lca))
  {
    var c := Wide(lca);
    WideInverse();
    forall j, n, m | CanBeLast(c, n, j) && |c.prev[j]| > 1 && m in c.prev[j] ensures Found(c, n, m) {
      assert Edge(c.prev, j, n);
      assert j in {"u", "v", "_end"};
      PairFound(lca, n, m);
    }
  }

  lemma WideIsGood(lca: map<(Name, Name), Name>)
    requires SearchTable(Wide(lca))
    ensures GoodConfig(Wide(lca))
  {
    WideIsNormal(lca);
    WideJoints(lca);
    MergesIffFound(Wide(lca));
  }

  // ----- what is lost -----

  lemma BelowSides()
    ensures !Reach(WIDE_NEXT, "p", "x") && !Reach(WIDE_NEXT, "p", "y")
    ensures !Reach(WIDE_NEXT, "u", "y") && !Reach(WIDE_NEXT, "v", "x")
  {
    var below := {"p", "u", "v", "_end"};
    forall a, b | a in below && Edge(WIDE_NEXT, a, b) ensures b in below {
    }
    forall a, b | a in below && b in {"x", "y"} ensures !Reach(WIDE_NEXT, a, b) {
      if Reach(WIDE_NEXT, a, b) {
        ReachStaysIn(WIDE_NEXT, below, a, b);
      }
    }
  }

  lemma AboveEnd()
    ensures "x" in Ancestors(WIDE_PREV, "_end") && "y" in Ancestors(WIDE_PREV, "_end")
  {
    WideShape();
    ReachEdge(WIDE_PREV, "_end", "u");
    ReachEdge(WIDE_PREV, "u", "x");
    ReachTrans(WIDE_PREV, "_end", "u", "x");
    ReachEdge(WIDE_PREV, "_end", "v");
    ReachEdge(WIDE_PREV, "v", "y");
    ReachTrans(WIDE_PREV, "_end", "v", "y");
  }

  /** What neither merge into `a` copies. */
  lemma NotBrought(lca: map<(Name, Name), Name>, a: Name, w: Name)
    requires SearchTable(Wide(lca)) && a in {"u", "v"} && w in {"u", "v"}
    ensures !Brings(Wide(lca), a, w, if a == "u" then "y" else "x")
  {
    var c, lost := Wide(lca), if a == "u" then "y" else "x";
    var r := if (a, w) in lca then Some(lca[(a, w)]) else None;
    assert PairAnswered(c, a, w);
    BelowSides();
    if a == w {
      ReachSelf(WIDE_NEXT, a);
      assert r == Some(a);
    } else {
      SidesMeetInP(a, w, r);
    }
  }

  lemma EndNotCovered(lca: map<(Name, Name), Name>, a: Name)
    requires SearchTable(Wide(lca)) && a in {"u", "v"}
    ensures !Covers(Wide(lca), a, END)
  {
    var c, lost := Wide(lca), if a == "u" then "y" else "x";
    AboveEnd();
    AboveSides();
    forall w | w in c.prev[END] ensures !Brings(c, a, w, lost) {
      NotBrought(lca, a, w);
    }
    assert lost !in Gain(c, a, END);
  }

  /** Every run, lossy or not, delivers only tasks that lack some service's result. */
  lemma NeverAll(lca: map<(Name, Name), Name>, ls: seq<Label>, i: nat)
    requires SearchTable(Wide(lca)) && Exec(Wide(lca), ls).Some? && i < |Exec(Wide(lca), ls).value.delivered|
    ensures !(WIDE_NEXT.Keys - {END} <= Exec(Wide(lca), ls).value.delivered[i].held)
  {
    WideShape();
    EndNotCovered(lca, "u");
    EndNotCovered(lca, "v");
    DeliveredLacks(Wide(lca), ls, i);
  }

  /** And loss-free runs do deliver. */
  lemma SomeDelivered(lca: map<(Name, Name), Name>) returns (ls: seq<Label>)
    requires SearchTable(Wide(lca))
    ensures AllLossless(ls) && Exec(Wide(lca), ls).Some? && Exec(Wide(lca), ls).value.delivered != []
  {
    var c := Wide(lca);
    WideIsGood(lca);
    StartRun(c);
    DispatchAllRoots(INIT.(roots := {0}), 0, c.next[START]);
    ls := EveryRunCanDeliver(c, [Start(0)]);
    assert DeliveredOnce(c, Exec(c, ls).value, 0);
  }
}
