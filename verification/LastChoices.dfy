/**
 Who arrives last at one joint can decide who does at another: being last is possible for each of two predecessors,
 each at one joint, and yet never for both in one run.
 */
module LastChoices {
  import opened Graphs
  import opened Dags
  import opened Protocol
  import opened RunInvariant
  import opened ForkStep
  import opened EnterStep
  import opened StartStep
  import opened ExactlyOnce
  import opened LastToArrive
  import opened AcceptedRuns
  import opened AlwaysDropped

  /** The controller processing what `u` returned is about to retrieve at `j`. */
  ghost predicate Arrives(s: State, r: Id, u: Name, j: Name) {
    exists pid :: ArrivesAt(s, pid, r, u, j)
  }

  ghost predicate ArrivesAt(s: State, pid: Id, r: Id, u: Name, j: Name) {
    Retrieving(s, pid) && s.procs[pid].task.root == r && s.procs[pid].task.cur == u && s.procs[pid].todo[0] == j
  }

  // ----- an edge taken stays taken -----

  lemma StartSentKept(c: Config, s: State, root: Id, r: Id, u: Name, j: Name)
    requires GoodConfig(c) && Inv(c, s) && Enabled(c, s, Start(root)) && r in s.roots && Sent(c, s, r, u, j)
    ensures Sent(c, Apply(c, s, Start(root)), r, u, j)
  {
    var s1 := s.(roots := s.roots + {root});
    FreshRoot(c, s, root);
    RootShape(c, s, root);
    SameRunning(s, s1);
    SameProcs(s, s1);
    StartChildren(c);
    DispatchAllKeeps(c, s1, root, c.next[START]);
    SameProcs(s1, Apply(c, s, Start(root)));
  }

  lemma ReturnSentKept(c: Config, s: State, id: Id)
    requires GoodConfig(c) && Inv(c, s) && Enabled(c, s, Return(id))
    ensures SameSent(c, s, ApplyReturn(c, s, id))
  {
    var t, s' := s.running[id], ApplyReturn(c, s, id);
    assert PlaceOk(c, s, t);
    ReturnEffect(c, s, id);
    EntSame(s, s');
    assert RunsAt(s, id, t.root, t.cur);
    ReturnSent(c, s, s', t);
  }

  lemma StepSentKept(c: Config, s: State, l: Label, r: Id, u: Name, j: Name)
    requires GoodConfig(c) && Inv(c, s) && Enabled(c, s, l) && Lossless(l) && r in s.roots && Sent(c, s, r, u, j)
    ensures Sent(c, Apply(c, s, l), r, u, j) && r in Apply(c, s, l).roots
  {
    StepRoots(c, s, l);
    match l
    case Start(root) => StartSentKept(c, s, root, r, u, j);
    case Return(id) => ReturnSentKept(c, s, id);
    case Fork(pid) => ForkSends(c, s, pid);
    case Retrieve(pid, order) => RetrieveSendsNothing(c, s, pid, order);
  }

  lemma {:induction false} SentForGood(c: Config, ls: seq<Label>, n: nat, r: Id, u: Name, j: Name)
    requires GoodConfig(c) && AllLossless(ls) && Exec(c, ls).Some? && n <= |ls|
    requires Exec(c, ls[..n]).Some? && r in Exec(c, ls[..n]).value.roots && Sent(c, Exec(c, ls[..n]).value, r, u, j)
    ensures Sent(c, Exec(c, ls).value, r, u, j) && r in Exec(c, ls).value.roots
    decreases |ls|
  {
    if n == |ls| {
      assert ls[..n] == ls;
    } else {
      var rest := ls[..|ls| - 1];
      assert rest[..n] == ls[..n];
      SentForGood(c, rest, n, r, u, j);
      RunKeeps(c, rest);
      StepSentKept(c, Exec(c, rest).value, ls[|ls| - 1], r, u, j);
    }
  }

  // ----- what an arrival shows -----

  /** An arrival at `j`: everybody else has served `j`, and the one that arrives has not served what comes after it. */
  lemma ArrivalShows(c: Config, s: State, r: Id, u: Name, v: Name, j: Name, k: Name)
    requires GoodConfig(c) && Inv(c, s) && Arrives(s, r, u, j) && Edge(c.next, v, j) && ServedAfter(c, u, j, k)
    ensures r in s.roots && Sent(c, s, r, v, j) && !Sent(c, s, r, u, k)
  {
    var pid :| ArrivesAt(s, pid, r, u, j);
    RetrieverFindsAll(c, s, pid);
    assert Edge(c.prev, j, v);
    LaterIsPending(c, s, pid, k);
  }

  /** Two predecessors that serve two joints in opposite orders are not both the last at their first ones. */
  lemma NotBothLast(c: Config, ls: seq<Label>, m: nat, n: nat, r: Id, u: Name, v: Name, j: Name, k: Name)
    requires GoodConfig(c) && AllLossless(ls) && m <= n <= |ls|
    requires Exec(c, ls[..n]).Some? && Exec(c, ls[..m]).Some?
    requires ServedAfter(c, u, j, k) && ServedAfter(c, v, k, j)
    ensures !(Arrives(Exec(c, ls[..m]).value, r, u, j) && Arrives(Exec(c, ls[..n]).value, r, v, k))
  {
    var early, late := Exec(c, ls[..m]).value, Exec(c, ls[..n]).value;
    RunKeeps(c, ls[..m]);
    RunKeeps(c, ls[..n]);
    assert Edge(c.next, v, j) && Edge(c.next, u, k);
    if Arrives(early, r, u, j) && Arrives(late, r, v, k) {
      ArrivalShows(c, early, r, u, v, j, k);
      assert ls[..n][..m] == ls[..m];
      SentForGood(c, ls[..n], m, r, v, j);
      ArrivalShows(c, late, r, v, u, k, j);
    }
  }

  // ----- two joints in opposite orders -----

  // `_start` leads to `u` and `v`; `u` to `j`, then `k`; `v` to `k`, then `j`; both end in `_end`.
  const CROSS_NEXT: Graph := map[
    "_start" := ["u", "v"], "u" := ["j", "k"], "v" := ["k", "j"], "j" := ["_end"], "k" := ["_end"], "_end" := []]

  const CROSS_PREV: Graph := map[
    "_start" := [], "u" := ["_start"], "v" := ["_start"], "j" := ["u", "v"], "k" := ["u", "v"], "_end" := ["j", "k"]]

  ghost function Cross(lca: map<(Name, Name), Name>): Config {
    Config(CROSS_NEXT, CROSS_PREV, lca)
  }

  lemma CrossInverse()
    ensures Inverse(CROSS_NEXT, CROSS_PREV)
  {
    assert CROSS_NEXT.Keys == CROSS_PREV.Keys;
  }

  lemma CrossShape()
    ensures Inverse(CROSS_NEXT, CROSS_PREV) && Closed(CROSS_NEXT) && Closed(CROSS_PREV) && Acyclic(CROSS_NEXT)
  {
    CrossInverse();
    InverseClosed(CROSS_NEXT, CROSS_PREV);
    RankedIsAcyclic(CROSS_NEXT, map["_start" := 3, "u" := 2, "v" := 2, "j" := 1, "k" := 1, "_end" := 0]);
  }

  lemma CrossIsNormal(lca: map<(Name, Name), Name>)
    ensures NormalConfig(Cross(lca)) && AllClean(Cross(lca))
  {
    CrossShape();
    CrossLists();
    assert forall n :: n in CROSS_PREV && START in CROSS_PREV[n] ==> CROSS_PREV[n] == [START];
  }

  lemma CrossLists()
    ensures forall n :: n in CROSS_NEXT ==> n in CROSS_PREV && Distinct(CROSS_NEXT[n]) && Distinct(CROSS_PREV[n])
    ensures forall n :: n in CROSS_NEXT ==>
      (CROSS_PREV[n] == [] <==> n == START) && (CROSS_NEXT[n] == [] <==> n == END)
  {
  }

  lemma SameParentsFound(c: Config, n: Name, m: Name, p: Name, q: Name)
    requires Inverse(c.next, c.prev) && n in c.prev && m in c.prev && c.prev[n] == [p, q] == c.prev[m]
    requires p != q && p !in {n, m} && q !in {n, m}
    ensures Found(c, n, m)
  {
    RoundToTwo(c.prev, n, p, q);
    RoundToTwo(c.prev, m, p, q);
    MetAfterOne(c.next, c.prev, n, m, p);
  }

  lemma SameParentFound(c: Config, n: Name, m: Name, p: Name)
    requires Inverse(c.next, c.prev) && n in c.prev && m in c.prev && c.prev[n] == [p] == c.prev[m]
    ensures Found(c, n, m)
  {
    RoundToOne(c.prev, n, p);
    RoundToOne(c.prev, m, p);
    MetAfterOne(c.next, c.prev, n, m, p);
  }

  lemma CrossPairFound(lca: map<(Name, Name), Name>, n: Name, m: Name)
    requires (n in {"u", "v"} && m in {"u", "v"}) || (n in {"j", "k"} && m in {"j", "k"})
    ensures Found(Cross(lca), n, m)
  {
    CrossInverse();
    if n in {"u", "v"} {
      SameParentFound(Cross(lca), n, m, "_start");
    } else {
      SameParentsFound(Cross(lca), n, m, "u", "v");
    }
  }

  lemma CrossIsGood(lca: map<(Name, Name), Name>)
    requires SearchTable(Cross(lca))
    ensures GoodConfig(Cross(lca))
  {
    var c := Cross(lca);
    CrossShape();
    CrossIsNormal(lca);
    forall j, n, m | CanBeLast(c, n, j) && |c.prev[j]| > 1 && m in c.prev[j] ensures Found(c, n, m) {
      assert Edge(c.prev, j, n);
      assert j in {"j", "k", "_end"};
      CrossPairFound(lca, n, m);
    }
    MergesIffFound(c);
  }

  lemma CrossOrders(lca: map<(Name, Name), Name>)
    ensures ServedAfter(Cross(lca), "u", "j", "k") && ServedAfter(Cross(lca), "v", "k", "j")
    ensures CanBeLast(Cross(lca), "u", "j") && CanBeLast(Cross(lca), "v", "k")
  {
    var c := Cross(lca);
    assert c.next["u"][0] == "j" && c.next["u"][1] == "k" && c.next["v"][0] == "k" && c.next["v"][1] == "j";
    var below := {"j", "k", "_end"};
    forall a, b | a in below && Edge(CROSS_NEXT, a, b) ensures b in below {
    }
    forall a, b | a in below && b in {"u", "v"} ensures !Reach(CROSS_NEXT, a, b) {
      if Reach(CROSS_NEXT, a, b) {
        ReachStaysIn(CROSS_NEXT, below, a, b);
      }
    }
    assert forall b :: ServedAfter(c, "u", "j", b) || ServedAfter(c, "v", "k", b) ==> b in below;
  }

  /** Each of the two is last at its first joint in some loss-free run. */
  lemma CrossedChoices(lca: map<(Name, Name), Name>) returns (one: seq<Label>, two: seq<Label>)
    requires SearchTable(Cross(lca))
    ensures var c := Cross(lca);
      && AllLossless(one) && Exec(c, one).Some? && Arrives(Exec(c, one).value, 0, "u", "j")
      && AllLossless(two) && Exec(c, two).Some? && Arrives(Exec(c, two).value, 0, "v", "k")
  {
    var c := Cross(lca);
    CrossIsGood(lca);
    CrossOrders(lca);
    assert c.prev["j"] == ["u", "v"] == c.prev["k"];
    var pid, other;
    one, pid := SomeRunArrives(c, "u", "j");
    assert ArrivesAt(Exec(c, one).value, pid, 0, "u", "j");
    two, other := SomeRunArrives(c, "v", "k");
    assert ArrivesAt(Exec(c, two).value, other, 0, "v", "k");
  }

  /** But in no loss-free run, and for no root task, are both. */
  lemma CrossedNeverBoth(lca: map<(Name, Name), Name>, ls: seq<Label>, m: nat, n: nat)
    requires SearchTable(Cross(lca)) && AllLossless(ls) && Exec(Cross(lca), ls).Some? && m <= |ls| && n <= |ls|
    ensures NotBoth(Cross(lca), ls, m, n)
  {
    var c := Cross(lca);
    CrossIsGood(lca);
    CrossOrders(lca);
    PrefixRuns(c, ls, m);
    PrefixRuns(c, ls, n);
    forall r ensures !(Arrives(Exec(c, ls[..m]).value, r, "u", "j") && Arrives(Exec(c, ls[..n]).value, r, "v", "k")) {
      if m <= n {
        NotBothLast(c, ls, m, n, r, "u", "v", "j", "k");
      } else {
        NotBothLast(c, ls, n, m, r, "v", "u", "k", "j");
      }
    }
  }

  /** For no root task have both arrived, the one after `m` and the other after `n` steps. */
  ghost predicate NotBoth(c: Config, ls: seq<Label>, m: nat, n: nat)
    requires m <= |ls| && n <= |ls|
  {
    && Exec(c, ls[..m]).Some? && Exec(c, ls[..n]).Some?
    && forall r :: !(Arrives(Exec(c, ls[..m]).value, r, "u", "j") && Arrives(Exec(c, ls[..n]).value, r, "v", "k"))
  }

  lemma {:induction false} PrefixRuns(c: Config, ls: seq<Label>, n: nat)
    requires Exec(c, ls).Some? && n <= |ls|
    ensures Exec(c, ls[..n]).Some?
    decreases |ls|
  {
    if n == |ls| {
      assert ls[..n] == ls;
    } else {
      assert ls[..|ls| - 1][..n] == ls[..n];
      PrefixRuns(c, ls[..|ls| - 1], n);
    }
  }
}
