/** Two small graphs on which the two-sided search does less than its name says. */
module LcaCounterexamples {
  import opened Graphs
  import opened Lca
  import opened Wrappers

  // `_start` leads to `x`, and along `a`, `b` to `c`; both end in `j`, and that in `_end`.
  const UNEVEN_NEXT: Graph := map[
    "_start" := ["x", "a"], "x" := ["j"], "a" := ["b"], "b" := ["c"], "c" := ["j"],
    "j" := ["_end"], "_end" := []]

  const UNEVEN_PREV: Graph := map[
    "_start" := [], "x" := ["_start"], "a" := ["_start"], "b" := ["a"], "c" := ["b"],
    "j" := ["x", "c"], "_end" := ["j"]]

  /** The set below is closed under predecessors, so it holds all ancestors. */
  lemma AncestorsWithin(prev: Graph, n: Name, S: set<Name>)
    requires n in S && forall u, v :: u in S && Edge(prev, u, v) ==> v in S
    ensures Ancestors(prev, n) <= S
  {
    forall m | m in Ancestors(prev, n) ensures m in S {
      ReachStaysIn(prev, S, n, m);
    }
  }

  lemma UnevenInverse()
    ensures Inverse(UNEVEN_NEXT, UNEVEN_PREV)
  {
    assert UNEVEN_NEXT.Keys == UNEVEN_PREV.Keys;
  }

  lemma UnevenShape()
    ensures Inverse(UNEVEN_NEXT, UNEVEN_PREV) && Closed(UNEVEN_NEXT) && Closed(UNEVEN_PREV)
    ensures Acyclic(UNEVEN_NEXT)
  {
    UnevenInverse();
    InverseClosed(UNEVEN_NEXT, UNEVEN_PREV);
    RankedIsAcyclic(UNEVEN_NEXT, map["_start" := 4, "x" := 1, "a" := 3, "b" := 2, "c" := 1, "j" := 0, "_end" := -1]);
  }

  lemma UnevenReach()
    ensures Reach(UNEVEN_NEXT, "_start", "x") && Reach(UNEVEN_NEXT, "_start", "c")
  {
    UnevenShape();
    ReachEdge(UNEVEN_NEXT, "_start", "x");
    ReachEdge(UNEVEN_NEXT, "_start", "a");
    ReachEdge(UNEVEN_NEXT, "a", "b");
    ReachEdge(UNEVEN_NEXT, "b", "c");
    ReachTrans(UNEVEN_NEXT, "_start", "a", "b");
    ReachTrans(UNEVEN_NEXT, "_start", "b", "c");
  }

  lemma UnevenFromX()
    ensures Rounds(UNEVEN_PREV, "x", 2).visited == map["x" := 0, "_start" := 1]
  {
    var prev := UNEVEN_PREV;
    assert Rounds(prev, "x", 0) == Start("x");
    assert Rounds(prev, "x", 1) == Side([("_start", 1)], map["x" := 0, "_start" := 1]);
  }

  lemma UnevenFromC()
    ensures Rounds(UNEVEN_PREV, "c", 2).visited == map["c" := 0, "b" := 1, "a" := 2]
  {
    var prev := UNEVEN_PREV;
    assert Rounds(prev, "c", 0) == Start("c");
    assert Rounds(prev, "c", 1) == Side([("b", 1)], map["c" := 0, "b" := 1]);
  }

  lemma UnevenRounds()
    ensures Common(UNEVEN_PREV, "x", "c", 2) == {}
  {
    UnevenFromX();
    UnevenFromC();
  }

  lemma UnevenApart()
    ensures !Reach(UNEVEN_NEXT, "x", "c") && !Reach(UNEVEN_NEXT, "c", "x")
    ensures |Ancestors(UNEVEN_PREV, "x")| <= 2
  {
    var next, prev := UNEVEN_NEXT, UNEVEN_PREV;
    UnevenShape();
    AncestorsWithin(prev, "x", {"x", "_start"});
    AncestorsWithin(prev, "c", {"c", "b", "a", "_start"});
    SubsetSize(Ancestors(prev, "x"), {"x", "_start"});
    InverseReach(next, prev, "x", "c");
    InverseReach(next, prev, "c", "x");
    assert "x" !in Ancestors(prev, "c") && "c" !in Ancestors(prev, "x");
  }

  /** The search is incomplete: `x` and `c` share the ancestor `_start`, yet it raises, whichever comes first. */
  lemma FindLcaIncomplete(r: Option<Name>)
    ensures LcaAnswer(UNEVEN_NEXT, UNEVEN_PREV, "x", "c", r) <==> r == None
    ensures LcaAnswer(UNEVEN_NEXT, UNEVEN_PREV, "c", "x", r) <==> r == None
    ensures Inverse(UNEVEN_NEXT, UNEVEN_PREV) && Acyclic(UNEVEN_NEXT)
    ensures Reach(UNEVEN_NEXT, "_start", "x") && Reach(UNEVEN_NEXT, "_start", "c")
  {
    UnevenShape();
    UnevenReach();
    UnevenRounds();
    UnevenApart();
    CommonGrows(UNEVEN_PREV, "x", "c", LastRound(UNEVEN_PREV, "x", "c"), 2);
    assert Common(UNEVEN_PREV, "c", "x", LastRound(UNEVEN_PREV, "c", "x")) ==
      Common(UNEVEN_PREV, "x", "c", LastRound(UNEVEN_PREV, "x", "c"));
  }

  // `_start` leads to `u`, to `v`, and over `w` by `p` to `u` and by `q` to `v`.
  const SHORTCUT_NEXT: Graph := map[
    "_start" := ["u", "v", "w"], "w" := ["p", "q"], "p" := ["u"], "q" := ["v"], "u" := [], "v" := []]

  const SHORTCUT_PREV: Graph := map[
    "_start" := [], "w" := ["_start"], "p" := ["w"], "q" := ["w"], "u" := ["_start", "p"], "v" := ["_start", "q"]]

  lemma ShortcutInverse()
    ensures Inverse(SHORTCUT_NEXT, SHORTCUT_PREV)
  {
    assert SHORTCUT_NEXT.Keys == SHORTCUT_PREV.Keys;
  }

  lemma ShortcutShape()
    ensures Inverse(SHORTCUT_NEXT, SHORTCUT_PREV) && Closed(SHORTCUT_NEXT) && Closed(SHORTCUT_PREV)
    ensures Acyclic(SHORTCUT_NEXT)
  {
    ShortcutInverse();
    InverseClosed(SHORTCUT_NEXT, SHORTCUT_PREV);
    RankedIsAcyclic(SHORTCUT_NEXT, map["_start" := 3, "w" := 2, "p" := 1, "q" := 1, "u" := 0, "v" := 0]);
  }

  lemma ShortcutReach()
    ensures StrictReach(SHORTCUT_NEXT, "_start", "w")
    ensures Reach(SHORTCUT_NEXT, "w", "u") && Reach(SHORTCUT_NEXT, "w", "v")
  {
    var next := SHORTCUT_NEXT;
    ShortcutShape();
    ReachEdge(next, "_start", "w");
    ReachEdge(next, "w", "p");
    ReachEdge(next, "p", "u");
    ReachEdge(next, "w", "q");
    ReachEdge(next, "q", "v");
    ReachTrans(next, "w", "p", "u");
    ReachTrans(next, "w", "q", "v");
  }

  lemma ShortcutApart()
    ensures !Reach(SHORTCUT_NEXT, "u", "v") && !Reach(SHORTCUT_NEXT, "v", "u")
  {
    var next, prev := SHORTCUT_NEXT, SHORTCUT_PREV;
    ShortcutShape();
    AncestorsWithin(prev, "u", {"u", "p", "w", "_start"});
    AncestorsWithin(prev, "v", {"v", "q", "w", "_start"});
    InverseReach(next, prev, "u", "v");
    InverseReach(next, prev, "v", "u");
    assert "u" !in Ancestors(prev, "v") && "v" !in Ancestors(prev, "u");
  }

  lemma ShortcutRounds()
    ensures Rounds(SHORTCUT_PREV, "u", 1) == Side([("_start", 1), ("p", 1)], map["u" := 0, "_start" := 1, "p" := 1])
    ensures Rounds(SHORTCUT_PREV, "v", 1) == Side([("_start", 1), ("q", 1)], map["v" := 0, "_start" := 1, "q" := 1])
    ensures LevelAfter(SHORTCUT_PREV, "u", 1) == 0
  {
    var prev := SHORTCUT_PREV;
    assert Rounds(prev, "u", 0) == Start("u") && Rounds(prev, "v", 0) == Start("v");
    assert ["_start", "p"][..1] == ["_start"] && ["_start", "q"][..1] == ["_start"];
    assert Rounds(prev, "u", 1) == MeetAll(Side([], map["u" := 0]), ["_start", "p"], 1);
    assert Rounds(prev, "v", 1) == MeetAll(Side([], map["v" := 0]), ["_start", "q"], 1);
  }

  lemma ShortcutStops()
    ensures Common(SHORTCUT_PREV, "u", "v", 0) == {} && Common(SHORTCUT_PREV, "u", "v", 1) == {"_start"}
    ensures StopsAt(SHORTCUT_PREV, "u", "v", 1) && !StopsAt(SHORTCUT_PREV, "u", "v", 0)
    ensures 1 <= LastRound(SHORTCUT_PREV, "u", "v")
  {
    var prev := SHORTCUT_PREV;
    ShortcutShape();
    ShortcutRounds();
    ReachSelf(prev, "u");
    ReachSelf(prev, "v");
    assert "u" in Ancestors(prev, "u") && "v" in Ancestors(prev, "v");
  }

  /** A single candidate is the deepest one. */
  lemma OnlyIsDeepest(next: Graph, prev: Graph, s: set<Name>, x: Name)
    requires s == {x}
    ensures DeepestOf(next, prev, s, x)
  {
    forall y, d: nat, e: nat | y in s && IsDepth(next, prev, x, d) && IsDepth(next, prev, y, e) ensures e <= d {
      DepthUnique(next, prev, x, d, e);
    }
  }

  lemma ShortcutEnds(k: nat)
    ensures EndsAt(SHORTCUT_PREV, "u", "v", k) <==> k == 1
  {
    ShortcutStops();
  }

  /** The answer need not be lowest: `w` lies below `_start` and above both `u` and `v`. */
  lemma FindLcaNotLowest(r: Option<Name>)
    ensures LcaAnswer(SHORTCUT_NEXT, SHORTCUT_PREV, "u", "v", r) <==> r == Some("_start")
    ensures Inverse(SHORTCUT_NEXT, SHORTCUT_PREV) && Acyclic(SHORTCUT_NEXT)
    ensures StrictReach(SHORTCUT_NEXT, "_start", "w")
    ensures Reach(SHORTCUT_NEXT, "w", "u") && Reach(SHORTCUT_NEXT, "w", "v")
  {
    var next, prev := SHORTCUT_NEXT, SHORTCUT_PREV;
    ShortcutShape();
    ShortcutReach();
    ShortcutApart();
    ShortcutStops();
    CommonGrows(prev, "u", "v", 1, LastRound(prev, "u", "v"));
    assert "_start" in Common(prev, "u", "v", 1);
    ShortcutEnds(1);
    OnlyIsDeepest(next, prev, Common(prev, "u", "v", 1), "_start");
    if LcaAnswer(next, prev, "u", "v", r) {
      var k :| EndsAt(prev, "u", "v", k) && DeepestOf(next, prev, Common(prev, "u", "v", k), r.value);
      ShortcutEnds(k);
    }
  }
}
