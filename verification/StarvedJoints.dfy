/**
 What no run can enter, under any loss, duplication, crash and interleaving; and a graph on which that includes
 the end.
 */
module StarvedJoints {
  import opened Graphs
  import opened Wrappers
  import opened Dags
  import opened Protocol
  import opened JoinSafety
  import opened RunInvariant
  import opened EntryOrder
  import opened ExactlyOnce
  import opened LosslessRuns
  import opened AcceptedRuns
  import opened OnceIff
  import opened LcaCounterexamples

  // ----- joints nothing gets through -----

  /**
   No node of the set is a child of the start, and each is a joint that cannot be joined or waits for another of
   the set.
   */
  ghost predicate Starved(c: Config, S: set<Name>) {
    forall n :: n in S ==>
      n in c.prev && START !in c.prev[n] && (Joinable(c, n) ==> exists u :: u in c.prev[n] && u in S)
  }

  lemma {:induction false} StarvedNotEntered(c: Config, s: State, S: set<Name>, i: nat)
    requires Inverse(c.next, c.prev) && Safe(c, s) && Traced(s) && Starved(c, S) && i < |s.entered|
    ensures s.entered[i].service !in S
  {
    var e := s.entered[i];
    assert EntrySafe(c, e) && EntryTraced(s, i);
    if e.origin.FromStart? {
      assert Edge(c.prev, e.service, START);
    } else if u :| u in c.prev[e.service] && u in S {
      assert u in e.origin.pasts;
      assert EnteredBefore(s, i, e.root, u);
      var k :| 0 <= k < i && IsEntry(s, k, e.root, u);
      StarvedNotEntered(c, s, S, k);
    }
  }

  /** No run whatsoever enters a starved service; if the end is starved, no run delivers anything. */
  lemma StarvedForever(c: Config, S: set<Name>, ls: seq<Label>)
    requires Inverse(c.next, c.prev) && Starved(c, S) && Exec(c, ls).Some?
    ensures forall e :: e in Exec(c, ls).value.entered ==> e.service !in S
    ensures END in S ==> Exec(c, ls).value.delivered == []
  {
    var s := Exec(c, ls).value;
    JoinSafe(c, ls);
    RunTraced(c, ls);
    forall i | 0 <= i < |s.entered| ensures s.entered[i].service !in S {
      StarvedNotEntered(c, s, S, i);
    }
    if s.delivered != [] {
      assert TaskTraced(s, s.delivered[0]);
      var i :| 0 <= i < |s.entered| && IsEntry(s, i, s.delivered[0].root, END);
    }
  }

  /** With a starved node no graph is exactly-once: a run with nothing left to do has not entered it. */
  lemma StarvedNotOnce(c: Config, S: set<Name>)
    requires NormalConfig(c) && Starved(c, S) && S != {}
    ensures !EveryRunOnce(c)
  {
    var n :| n in S;
    InverseClosed(c.next, c.prev);
    StartRun(c);
    DispatchAllRoots(INIT.(roots := {0}), 0, c.next[START]);
    var ls := RunsOut(c, [Start(0)]);
    var s := Exec(c, ls).value;
    StarvedForever(c, S, ls);
    forall i | 0 <= i < |s.entered| ensures !IsEntry(s, i, 0, n) {
      assert s.entered[i] in s.entered;
    }
    assert n != START && 0 in s.roots && Entries(s, 0, n) == {};
    assert !RunOnce(c, ls);
  }

  // ----- a normal graph on which nothing is ever delivered -----

  ghost function Uneven(lca: map<(Name, Name), Name>): Config {
    Config(UNEVEN_NEXT, UNEVEN_PREV, lca)
  }

  lemma UnevenIsNormal(lca: map<(Name, Name), Name>)
    ensures NormalConfig(Uneven(lca)) && AllClean(Uneven(lca))
  {
    UnevenShape();
    UnevenLists();
    assert forall n :: n in UNEVEN_PREV && START in UNEVEN_PREV[n] ==> UNEVEN_PREV[n] == [START];
  }

  lemma UnevenLists()
    ensures forall n :: n in UNEVEN_NEXT ==> n in UNEVEN_PREV && Distinct(UNEVEN_NEXT[n]) && Distinct(UNEVEN_PREV[n])
    ensures forall n :: n in UNEVEN_NEXT ==>
      (UNEVEN_PREV[n] == [] <==> n == START) && (UNEVEN_NEXT[n] == [] <==> n == END)
  {
  }

  /** Both predecessors of the joint raise on each other, in either order. */
  lemma UnevenStarved(lca: map<(Name, Name), Name>)
    requires SearchTable(Uneven(lca))
    ensures Starved(Uneven(lca), {"j", END})
  {
    var c := Uneven(lca);
    var xc := if ("x", "c") in lca then Some(lca[("x", "c")]) else None;
    var cx := if ("c", "x") in lca then Some(lca[("c", "x")]) else None;
    assert PairAnswered(c, "x", "c") && PairAnswered(c, "c", "x");
    FindLcaIncomplete(xc);
    FindLcaIncomplete(cx);
    NobodyMerges(c, "j", "x", "c");
    assert c.prev[END] == ["j"] && "j" in c.prev[END];
  }

  lemma NobodyMerges(c: Config, j: Name, a: Name, b: Name)
    requires j in c.prev && c.prev[j] == [a, b] && (a, b) !in c.lca && (b, a) !in c.lca
    ensures !Joinable(c, j)
  {
    assert a in c.prev[j] && b in c.prev[j];
    assert !MergesAll(c, a, j) && !MergesAll(c, b, j);
  }

  /** One source, one sink, clean lists, and the search as it is: still no run, lossy or not, ever delivers. */
  lemma UnevenNeverDelivers(lca: map<(Name, Name), Name>, ls: seq<Label>)
    requires SearchTable(Uneven(lca)) && Exec(Uneven(lca), ls).Some?
    ensures NormalConfig(Uneven(lca)) && AllClean(Uneven(lca))
    ensures Exec(Uneven(lca), ls).value.delivered == []
    ensures forall e :: e in Exec(Uneven(lca), ls).value.entered ==> e.service != "j"
  {
    UnevenIsNormal(lca);
    UnevenStarved(lca);
    StarvedForever(Uneven(lca), {"j", END}, ls);
  }

  /** So it is not exactly-once, although every list is clean. */
  lemma UnevenNotOnce(lca: map<(Name, Name), Name>)
    requires SearchTable(Uneven(lca))
    ensures !EveryRunOnce(Uneven(lca))
  {
    UnevenIsNormal(lca);
    UnevenStarved(lca);
    StarvedNotOnce(Uneven(lca), {"j", END});
  }
}
