/** Where every joint is covered, no run, however lossy or repetitive, delivers a task without all results. */
module ResultsComplete {
  import opened Graphs
  import opened Wrappers
  import opened Dags
  import opened Lca
  import opened TaskMerge
  import opened Protocol
  import opened JoinSafety

  /** Merging the branch from `w` into the one from `u` brings the result of `a`. */
  ghost predicate Brings(c: Config, u: Name, w: Name, a: Name) {
    (u, w) in c.lca && a in MergeSet(c.next, c.lca[(u, w)], w)
  }

  /** What a task holds that came from `u` and was merged at `j`, if every task held all it could. */
  ghost function Gain(c: Config, u: Name, j: Name): set<Name>
    requires j in c.prev
  {
    set a | a in c.prev && (a in Ancestors(c.prev, u) || exists w :: w in c.prev[j] && Brings(c, u, w, a))
  }

  /** The predecessor can be the one that retrieves: it is the only one, or its merges find a common ancestor. */
  ghost predicate CanArrive(c: Config, u: Name, j: Name)
    requires j in c.prev
  {
    u in c.prev[j] && (|c.prev[j]| > 1 ==> MergesAll(c, u, j))
  }

  /** Coming from `u`, a merged task has everything above the joint. */
  ghost predicate Covers(c: Config, u: Name, j: Name)
    requires j in c.prev
  {
    Ancestors(c.prev, j) - {j} <= Gain(c, u, j)
  }

  /** At every joint each predecessor that can retrieve gains whatever lies above the joint. */
  ghost predicate JointsCovered(c: Config) {
    forall j, u {:trigger Covers(c, u, j)} :: j in c.prev && CanArrive(c, u, j) ==> Covers(c, u, j)
  }

  /** The children of the start have no other predecessor. */
  ghost predicate StartsAlone(c: Config) {
    && Inverse(c.next, c.prev)
    && START in c.next && c.prev[START] == []
    && (forall j :: j in c.next[START] ==> j in c.prev && Elements(c.prev[j]) == {START})
  }

  ghost predicate CompleteConfig(c: Config) {
    StartsAlone(c) && JointsCovered(c)
  }

  /** If the step retrieves from a predecessor that can, that one has everything above the joint. */
  ghost predicate CoveredStep(c: Config, s: State, l: Label) {
    l.Retrieve? && Enabled(c, s, l) && CanArrive(c, s.procs[l.pid].task.cur, s.procs[l.pid].todo[0]) ==>
      Covers(c, s.procs[l.pid].task.cur, s.procs[l.pid].todo[0])
  }

  ghost predicate HoldsAbove(c: Config, t: TaskData) {
    Ancestors(c.prev, t.cur) - {t.cur} <= t.held
  }

  ghost predicate HoldsPast(c: Config, t: TaskData) {
    Ancestors(c.prev, t.past) <= t.held
  }

  ghost predicate Complete(c: Config, s: State) {
    && (forall id {:trigger s.running[id]} :: id in s.running ==> HoldsAbove(c, s.running[id]))
    && (forall pid {:trigger s.procs[pid]} :: pid in s.procs ==>
      && Ancestors(c.prev, s.procs[pid].task.cur) <= s.procs[pid].task.held
      && (s.procs[pid].retrieving.Some? ==> HoldsPast(c, s.procs[pid].retrieving.value)))
    && (forall key, id {:trigger s.store[key][id]} :: key in s.store && id in s.store[key] ==>
         HoldsPast(c, s.store[key][id]))
    && (forall i :: 0 <= i < |s.delivered| ==> s.delivered[i].cur == END && HoldsAbove(c, s.delivered[i]))
  }

  /** What lies strictly above a node lies on or above one of its predecessors. */
  lemma StrictlyAbove(prev: Graph, j: Name, a: Name)
    requires Closed(prev) && a in Ancestors(prev, j) && a != j
    ensures exists u :: Edge(prev, j, u) && a in Ancestors(prev, u)
  {
    ReachSplit(prev, j, a);
    var u :| Edge(prev, j, u) && Reach(prev, u, a);
  }

  /** The services a merge copies are all on or above the other branch's end, so the other task has them. */
  lemma CopiedAreHeld(c: Config, u: Name, w: Name)
    requires Inverse(c.next, c.prev) && w in c.next && (u, w) in c.lca
    ensures MergeSet(c.next, c.lca[(u, w)], w) <= Ancestors(c.prev, w)
  {
    OverwritesOnlyAncestors(c.next, c.prev, c.lca[(u, w)], w);
  }

  /** Merges lose nothing and add what each of them brings. */
  lemma {:induction false} MergeAllAdds(c: Config, t: TaskData, data: map<Id, TaskData>, order: seq<Id>)
    requires Inverse(c.next, c.prev) && forall id :: id in order ==> id in data
    requires forall id :: id in data ==> HoldsPast(c, data[id]) && data[id].past in c.next
    ensures MergeAll(c, t, data, order).Some? ==>
      && t.held <= MergeAll(c, t, data, order).value.held
      && forall id, a :: id in order && Brings(c, t.past, data[id].past, a) ==>
         a in MergeAll(c, t, data, order).value.held
    decreases |order|
  {
    if order != [] {
      var rest, last := order[..|order| - 1], order[|order| - 1];
      assert order == rest + [last];
      MergeAllAdds(c, t, data, rest);
      MergeKeepsPlace(c, t, data, rest);
      var m := MergeAll(c, t, data, rest);
      if m.Some? && (t.past, data[last].past) in c.lca {
        CopiedAreHeld(c, t.past, data[last].past);
      }
    }
  }

  /** Together the predecessors hold all that lies strictly above the joint. */
  lemma AllPastsCover(c: Config, j: Name, held: set<Name>)
    requires Inverse(c.next, c.prev) && j in c.prev
    requires forall u :: u in c.prev[j] ==> Ancestors(c.prev, u) <= held
    ensures Ancestors(c.prev, j) - {j} <= held
  {
    InverseClosed(c.next, c.prev);
    forall a | a in Ancestors(c.prev, j) - {j} ensures a in held {
      StrictlyAbove(c.prev, j, a);
    }
  }

  lemma DispatchComplete(c: Config, s: State, t: TaskData, o: Origin)
    requires Complete(c, s) && HoldsAbove(c, t)
    ensures Complete(c, Dispatch(s, t, o))
  {
  }

  lemma AdvanceComplete(c: Config, s: State, pid: Id)
    requires Complete(c, s) && pid in s.procs && s.procs[pid].todo != []
    ensures Complete(c, Protocol.Advance(s, pid))
  {
  }

  lemma SentComplete(c: Config, s: State, t: TaskData, o: Origin, pid: Id)
    requires Complete(c, s) && HoldsAbove(c, t) && pid in s.procs && s.procs[pid].todo != []
    ensures Complete(c, Protocol.Advance(Dispatch(s, t, o), pid))
  {
    DispatchComplete(c, s, t, o);
    AdvanceComplete(c, Dispatch(s, t, o), pid);
  }

  lemma StartAbove(c: Config, j: Name)
    requires StartsAlone(c) && j in c.next[START]
    ensures Ancestors(c.prev, j) - {j} <= {START}
  {
    InverseClosed(c.next, c.prev);
    forall u | u in c.prev[j] ensures Ancestors(c.prev, u) <= {START} {
      assert u in Elements(c.prev[j]);
      forall a | a in Ancestors(c.prev, START) ensures a == START {
        ReachStaysIn(c.prev, {START}, START, a);
      }
    }
    AllPastsCover(c, j, {START});
  }

  lemma {:induction false} DispatchAllComplete(c: Config, s: State, root: Id, children: seq<Name>)
    requires StartsAlone(c) && Complete(c, s) && forall j :: j in children ==> j in c.next[START]
    ensures Complete(c, DispatchAll(s, root, children))
    decreases |children|
  {
    if children != [] {
      var last := children[|children| - 1];
      DispatchAllComplete(c, s, root, children[..|children| - 1]);
      StartAbove(c, last);
      DispatchComplete(c, DispatchAll(s, root, children[..|children| - 1]),
        TaskData(root, s.nextId, last, START, {START}), FromStart);
    }
  }

  lemma ReturnComplete(c: Config, s: State, id: Id)
    requires Complete(c, s) && Enabled(c, s, Return(id))
    ensures Complete(c, ApplyReturn(c, s, id))
  {
    assert HoldsAbove(c, s.running[id]);
  }

  lemma PutComplete(c: Config, s: State, t: TaskData)
    requires Complete(c, s) && HoldsPast(c, t)
    ensures Complete(c, Put(s, t))
  {
    var s' := Put(s, t);
    forall key, id | key in s'.store && id in s'.store[key] ensures HoldsPast(c, s'.store[key][id]) {
      if key in s.store && id in s.store[key] {
        assert HoldsPast(c, s.store[key][id]);
      }
    }
  }

  lemma ClaimComplete(c: Config, s: State, pid: Id, t: TaskData)
    requires Complete(c, s) && pid in s.procs && HoldsPast(c, t)
    ensures Complete(c, Claim(s, pid, t))
  {
  }

  lemma ForkComplete(c: Config, s: State, pid: Id)
    requires StartsAlone(c) && Complete(c, s) && Safe(c, s) && Enabled(c, s, Fork(pid))
    ensures Complete(c, ApplyFork(c, s, pid))
  {
    var t := Forked(s, s.procs[pid]);
    assert HoldsPast(c, t);
    if |c.prev[t.cur]| > 1 {
      StoredComplete(c, s, pid, t);
    } else {
      assert ProcSafe(c, s.procs[pid]);
      DirectHolds(c, t);
      DirectComplete(c, s, pid, t);
    }
  }

  lemma StoredComplete(c: Config, s: State, pid: Id, t: TaskData)
    requires Complete(c, s) && pid in s.procs && s.procs[pid].todo != [] && HoldsPast(c, t)
    ensures Complete(c, Protocol.Advance(Put(s, t), pid)) && Complete(c, Claim(Put(s, t), pid, t))
  {
    PutComplete(c, s, t);
    AdvanceComplete(c, Put(s, t), pid);
    ClaimComplete(c, Put(s, t), pid, t);
  }

  lemma DirectComplete(c: Config, s: State, pid: Id, t: TaskData)
    requires Complete(c, s) && pid in s.procs && s.procs[pid].todo != [] && HoldsAbove(c, t)
    ensures Complete(c, Protocol.Advance(Dispatch(s.(nextId := s.nextId + 1), t, FromReturn({t.past})), pid))
  {
    var s1 := s.(nextId := s.nextId + 1);
    assert Complete(c, s1);
    SentComplete(c, s1, t, FromReturn({t.past}), pid);
  }

  lemma DirectHolds(c: Config, t: TaskData)
    requires Inverse(c.next, c.prev) && HoldsPast(c, t) && Edge(c.next, t.past, t.cur) && |c.prev[t.cur]| <= 1
    requires t.cur in c.prev
    ensures HoldsAbove(c, t)
  {
    SinglePredecessor(c, t.past, t.cur);
    forall u | u in c.prev[t.cur] ensures Ancestors(c.prev, u) <= t.held {
      assert u in Elements(c.prev[t.cur]);
    }
    AllPastsCover(c, t.cur, t.held);
  }

  lemma RetrieveComplete(c: Config, s: State, pid: Id, order: seq<Id>)
    requires StartsAlone(c) && Complete(c, s) && Safe(c, s) && Enabled(c, s, Retrieve(pid, order))
    requires CoveredStep(c, s, Retrieve(pid, order))
    ensures Complete(c, ApplyRetrieve(c, s, pid, order))
  {
    var p := s.procs[pid];
    assert ProcSafe(c, p);
    var j := p.todo[0];
    var key := (p.task.root, j);
    var data := Stored(s.store, key);
    TakenComplete(c, s, key);
    AdvanceComplete(c, s, pid);
    AdvanceComplete(c, Taken(s, key), pid);
    DropComplete(c, Taken(s, key), pid);
    var merged := MergeAll(c, p.retrieving.value, data, order);
    if |Pasts(data)| == |c.prev[j]| && merged.Some? {
      MergedHolds(c, s, p, j, data, order);
      SentComplete(c, Taken(s, key), merged.value, FromReturn(Pasts(data)), pid);
    }
  }

  lemma TakenComplete(c: Config, s: State, key: (Id, Name))
    requires Complete(c, s)
    ensures Complete(c, Taken(s, key))
  {
  }

  lemma DropComplete(c: Config, s: State, pid: Id)
    requires Complete(c, s)
    ensures Complete(c, s.(procs := s.procs - {pid}))
  {
  }

  /** What is merged out of all predecessors' tasks holds everything above the joint. */
  lemma MergedHolds(c: Config, s: State, p: Proc, j: Name, data: map<Id, TaskData>, order: seq<Id>)
    requires StartsAlone(c) && Complete(c, s) && Safe(c, s) && p.retrieving.Some? && HoldsPast(c, p.retrieving.value)
    requires j in c.prev && (CanArrive(c, p.retrieving.value.past, j) ==> Covers(c, p.retrieving.value.past, j))
    requires p.retrieving.value.cur == j && j in c.prev && |Pasts(data)| == |c.prev[j]| &&
      Edge(c.next, p.retrieving.value.past, j)
    requires data == Stored(s.store, (p.task.root, j)) && Elements(order) == data.Keys
    requires forall id :: id in order ==> id in data
    requires MergeAll(c, p.retrieving.value, data, order).Some?
    ensures HoldsAbove(c, MergeAll(c, p.retrieving.value, data, order).value)
  {
    var t := p.retrieving.value;
    var m := MergeAll(c, t, data, order).value;
    var key := (p.task.root, j);
    InverseClosed(c.next, c.prev);
    forall id | id in data ensures HoldsPast(c, data[id]) && Edge(c.next, data[id].past, j) {
      assert HoldsPast(c, s.store[key][id]) && StoredSafe(c, key, s.store[key][id]);
    }
    MergeAllAdds(c, t, data, order);
    MergeKeepsPlace(c, t, data, order);
    MergeAnswers(c, t, data, order);
    AllPredecessors(c, j, Pasts(data));
    RetrieverMerges(c, t.past, j, data, order);
    GainIsHeld(c, t, j, data, order, m.held);
    assert Covers(c, t.past, j);
  }

  lemma GainIsHeld(c: Config, t: TaskData, j: Name, data: map<Id, TaskData>, order: seq<Id>, held: set<Name>)
    requires j in c.prev && Elements(order) == data.Keys && Pasts(data) == Elements(c.prev[j])
    requires (forall id :: id in order ==> id in data) && HoldsPast(c, t) && t.held <= held
    requires forall id, a :: id in order && Brings(c, t.past, data[id].past, a) ==> a in held
    ensures Gain(c, t.past, j) <= held
  {
    forall a | a in Gain(c, t.past, j) ensures a in held {
      if a !in Ancestors(c.prev, t.past) {
        var w :| w in c.prev[j] && Brings(c, t.past, w, a);
        assert w in Pasts(data);
        var id :| id in data && data[id].past == w;
        assert id in Elements(order);
      }
    }
  }

  lemma StepComplete(c: Config, s: State, l: Label)
    requires StartsAlone(c) && Complete(c, s) && Safe(c, s) && Enabled(c, s, l) && CoveredStep(c, s, l)
    ensures Complete(c, Apply(c, s, l))
  {
    match l
    case Start(root) => DispatchAllComplete(c, s.(roots := s.roots + {root}), root, c.next[START]);
    case Return(id) => ReturnComplete(c, s, id);
    case Fork(pid) => ForkComplete(c, s, pid);
    case Retrieve(pid, order) => RetrieveComplete(c, s, pid, order);
    case Lose(id) =>
    case Duplicate(id) =>
    case StoreFails(pid) => AdvanceComplete(c, s, pid);
    case RetrieveFails(pid) => AdvanceComplete(c, s, pid);
    case Crash(pid) =>
    case Expire(root, joint) =>
  }

  lemma {:induction false} RunComplete(c: Config, ls: seq<Label>)
    requires CompleteConfig(c) && Exec(c, ls).Some?
    ensures Complete(c, Exec(c, ls).value)
  {
    if ls != [] {
      RunComplete(c, ls[..|ls| - 1]);
      JoinSafe(c, ls[..|ls| - 1]);
      StepComplete(c, Exec(c, ls[..|ls| - 1]).value, ls[|ls| - 1]);
    }
  }

  /** Every delivered end task holds the result of every service of the graph. */
  lemma DeliveredComplete(c: Config, ls: seq<Label>, i: nat)
    requires CompleteConfig(c) && Exec(c, ls).Some? && i < |Exec(c, ls).value.delivered|
    requires forall n :: n in c.next ==> Reach(c.next, n, END)
    ensures c.next.Keys - {END} <= Exec(c, ls).value.delivered[i].held
  {
    RunComplete(c, ls);
    var t := Exec(c, ls).value.delivered[i];
    assert t.cur == END && HoldsAbove(c, t);
    forall n | n in c.next.Keys - {END} ensures n in t.held {
      InverseReach(c.next, c.prev, n, END);
    }
  }

  // ----- when joints are covered -----

  /** The table holds answers of the common-ancestor search. */
  ghost predicate LcaTable(c: Config) {
    forall u, v {:trigger (u, v) in c.lca} :: (u, v) in c.lca ==>
      u in c.next && v in c.next && LcaAnswer(c.next, c.prev, u, v, Some(c.lca[(u, v)]))
  }

  /** The common ancestor of any two branches reaches whatever the one lacks of the other. */
  ghost predicate MergesComplete(c: Config) {
    forall u, v {:trigger (u, v) in c.lca} :: (u, v) in c.lca ==>
      forall a :: a in Ancestors(c.prev, v) && a !in Ancestors(c.prev, u) ==> Reach(c.next, c.lca[(u, v)], a)
  }

  /**
   One merge brings all that lies on or above the other branch and not above its own exactly if the common
   ancestor reaches that.
   */
  lemma BringsIff(c: Config, u: Name, w: Name, a: Name)
    requires Inverse(c.next, c.prev) && LcaTable(c) && (u, w) in c.lca
    requires a in Ancestors(c.prev, w) && a !in Ancestors(c.prev, u)
    ensures Brings(c, u, w, a) <==> Reach(c.next, c.lca[(u, w)], a)
  {
    var lca := c.lca[(u, w)];
    AnswerIsCommonAncestor(c.next, c.prev, u, w, lca);
    InverseReach(c.next, c.prev, lca, u);
    InverseReach(c.next, c.prev, a, w);
    InverseClosed(c.next, c.prev);
    ReachNodes(c.next, lca, u);
  }

  /** If every two branches merge completely, every joint is covered. */
  lemma CompleteMergesCover(c: Config)
    requires Inverse(c.next, c.prev) && LcaTable(c) && MergesComplete(c)
    ensures JointsCovered(c)
  {
    InverseClosed(c.next, c.prev);
    forall j, u | j in c.prev && CanArrive(c, u, j) ensures Covers(c, u, j) {
      forall a | a in Ancestors(c.prev, j) - {j} ensures a in Gain(c, u, j) {
        StrictlyAbove(c.prev, j, a);
        var w :| Edge(c.prev, j, w) && a in Ancestors(c.prev, w);
        if |c.prev[j]| <= 1 {
          assert u == w;
        } else if a !in Ancestors(c.prev, u) {
          BringsIff(c, u, w, a);
        }
      }
    }
  }
}
