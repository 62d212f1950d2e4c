/** Entering a service, directly or out of a completed joint, and returning from it, keep the run invariant. */
module EnterStep {
  import opened Graphs
  import opened Dags
  import opened Protocol
  import opened RunInvariant
  import opened ForkStep

  /** What submitting a task to a service, or to the end, does to entries and running tasks. */
  ghost predicate EnterEffect(s: State, s': State, r0: Id, j0: Name) {
    && (forall r, j :: Ent(s', r, j) <==> Ent(s, r, j) || (r == r0 && j == j0))
    && (forall r, u :: Busy(s', r, u) <==> Busy(s, r, u) || (r == r0 && u == j0 && u != END))
  }

  /** A node just entered for the first time has sent nothing before and nothing yet. */
  lemma EnteredSendsNothing(c: Config, s: State, s': State, r0: Id, j0: Name)
    requires EnterEffect(s, s', r0, j0) && !Ent(s, r0, j0) && j0 != START && END in c.next && c.next[END] == []
    ensures forall j :: !Sent(c, s, r0, j0, j) && !Sent(c, s', r0, j0, j)
  {
  }

  /** Serving a joint directly takes its edge. */
  lemma DirectSent(c: Config, s: State, s': State, r0: Id, u0: Name, j0: Name)
    requires EnterEffect(s, s', r0, j0) && !Ent(s, r0, j0) && j0 != START && END in c.next && c.next[END] == []
    requires Edge(c.next, u0, j0) && Ent(s, r0, u0) && !Busy(s, r0, u0) && u0 != j0
    requires forall r, u, j :: Pend(s', r, u, j) <==> Pend(s, r, u, j) && !(r == r0 && u == u0 && j == j0)
    ensures OneMoreSent(c, s, s', r0, u0, j0)
  {
    EnteredSendsNothing(c, s, s', r0, j0);
  }

  /** Entering out of a completed joint takes no further edge. */
  lemma JoinedSent(c: Config, s: State, s': State, r0: Id, j0: Name)
    requires EnterEffect(s, s', r0, j0) && !Ent(s, r0, j0) && j0 != START && END in c.next && c.next[END] == []
    requires forall r, u, j :: Pend(s', r, u, j) <==> Pend(s, r, u, j)
    ensures SameSent(c, s, s')
  {
    EnteredSendsNothing(c, s, s', r0, j0);
  }

  /** Entered with all edges taken, nothing stored and nobody retrieving: the node is in order. */
  lemma EnteredNode(c: Config, s: State, r: Id, j: Name)
    requires j in c.prev && Ent(s, r, j) && AllSent(c, s, r, j) && !Retr(s, r, j) && (r, j) !in s.store
    ensures NodeOk(c, s, r, j)
  {
  }

  lemma DirectEffect(c: Config, s: State, pid: Id, t: TaskData)
    requires Working(s, pid) && t == Forked(s, s.procs[pid]) && OnePerSpot(s) && TailDrops(s.procs[pid].todo) && Ids(s)
    ensures var s1 := s.(nextId := s.nextId + 1);
      var s' := Advance(Dispatch(s1, t, FromReturn({t.past})), pid);
      && EnterEffect(s, s', t.root, t.cur)
      && (forall r, u, j :: Pend(s', r, u, j) <==> Pend(s, r, u, j) && !(r == t.root && u == t.past && j == t.cur))
      && (forall r, j :: Retr(s', r, j) <==> Retr(s, r, j))
      && s'.store == s.store && s'.roots == s.roots
  {
    var s1 := s.(nextId := s.nextId + 1);
    var s2 := Dispatch(s1, t, FromReturn({t.past}));
    SameRunning(s, s1);
    DispatchEnt(s1, t, FromReturn({t.past}));
    DispatchBusy(s1, t, FromReturn({t.past}));
    SameProcs(s, s2);
    ProcSpots(s, s2);
    AdvancePend(s2, pid);
    AdvanceRetr(s2, pid);
    SameRunning(s2, Advance(s2, pid));
  }

  lemma ForkDirect(c: Config, s: State, pid: Id)
    requires GoodConfig(c) && Inv(c, s) && Enabled(c, s, Fork(pid)) && |c.prev[s.procs[pid].todo[0]]| <= 1
    ensures Inv(c, ApplyFork(c, s, pid))
  {
    var t := Forked(s, s.procs[pid]);
    assert ApplyFork(c, s, pid) == Advance(Dispatch(s.(nextId := s.nextId + 1), t, FromReturn({t.past})), pid);
    DirectKeeps(c, s, pid, t);
  }

  lemma DirectKeeps(c: Config, s: State, pid: Id, t: TaskData)
    requires GoodConfig(c) && Inv(c, s) && Working(s, pid) && t == Forked(s, s.procs[pid])
    requires t.cur in c.prev && |c.prev[t.cur]| <= 1
    ensures Inv(c, Advance(Dispatch(s.(nextId := s.nextId + 1), t, FromReturn({t.past})), pid))
  {
    NotYetSent(c, s, pid);
    NotSelf(c, t.past, t.cur);
    SolePredecessor(c.prev[t.cur], t.past);
    DirectShape(c, s, pid, t);
    DirectNodes(c, s, pid, t);
  }

  lemma SolePredecessor(s: seq<Name>, u: Name)
    requires |s| <= 1 && u in s
    ensures s == [u]
  {
  }

  lemma DirectShape(c: Config, s: State, pid: Id, t: TaskData)
    requires GoodConfig(c) && Shape(c, s) && Working(s, pid) && t == Forked(s, s.procs[pid])
    requires t.cur in c.prev && c.prev[t.cur] == [t.past] && t.cur in c.next && t.cur != START
    requires t.root in s.roots && !Ent(s, t.root, t.cur) && Ent(s, t.root, t.past)
    ensures Shape(c, Advance(Dispatch(s.(nextId := s.nextId + 1), t, FromReturn({t.past})), pid))
  {
    var s1 := s.(nextId := s.nextId + 1);
    RenumberShape(c, s, s1);
    SameRunning(s, s1);
    DispatchShape(c, s1, t, FromReturn({t.past}));
    AdvanceShape(c, Dispatch(s1, t, FromReturn({t.past})), pid);
  }

  lemma DirectNodes(c: Config, s: State, pid: Id, t: TaskData)
    requires Inverse(c.next, c.prev) && AllNodesOk(c, s) && END in c.next && c.next[END] == []
    requires Working(s, pid) && t == Forked(s, s.procs[pid]) && OnePerSpot(s) && TailDrops(s.procs[pid].todo) && Ids(s)
    requires t.cur in c.prev && c.prev[t.cur] == [t.past] && t.cur != START && t.past != t.cur &&
      Edge(c.next, t.past, t.cur)
    requires !Ent(s, t.root, t.cur) && !Retr(s, t.root, t.cur) && Ent(s, t.root, t.past) && !Busy(s, t.root, t.past)
    requires NodeOk(c, s, t.root, t.cur)
    ensures AllNodesOk(c, Advance(Dispatch(s.(nextId := s.nextId + 1), t, FromReturn({t.past})), pid))
  {
    DirectEffect(c, s, pid, t);
    var s' := Advance(Dispatch(s.(nextId := s.nextId + 1), t, FromReturn({t.past})), pid);
    DirectSent(c, s, s', t.root, t.past, t.cur);
    assert Sent(c, s', t.root, t.past, t.cur);
    EnteredNode(c, s', t.root, t.cur);
    DirectOthers(c, s, s', t);
  }

  lemma NotSelf(c: Config, u: Name, j: Name)
    requires GoodConfig(c) && Edge(c.next, u, j)
    ensures u != j
  {
    InverseClosed(c.next, c.prev);
    ReachEdge(c.next, u, j);
  }

  lemma DirectOthers(c: Config, s: State, s': State, t: TaskData)
    requires Inverse(c.next, c.prev) && AllNodesOk(c, s) && s'.roots == s.roots && s'.store == s.store
    requires OneMoreSent(c, s, s', t.root, t.past, t.cur) && EnterEffect(s, s', t.root, t.cur)
    requires forall r, j :: Retr(s', r, j) <==> Retr(s, r, j)
    requires t.cur in c.prev && NodeOk(c, s', t.root, t.cur)
    ensures AllNodesOk(c, s')
  {
    assert SameStoreBut(s.store, s'.store, t.root, t.cur);
    OtherNodes(c, s, s', t.root, t.past, t.cur);
  }

  lemma RenumberShape(c: Config, s: State, s': State)
    requires Shape(c, s) && s'.nextId >= s.nextId && s' == s.(nextId := s'.nextId)
    ensures Shape(c, s')
  {
    SameRunning(s, s');
    SpotsOf(s, s');
    forall k | k in s'.procs ensures ProcOk(c, s', s'.procs[k]) {
      assert ProcOk(c, s, s.procs[k]);
    }
    forall id | id in s'.running ensures PlaceOk(c, s', s'.running[id]) {
      assert PlaceOk(c, s, s.running[id]);
    }
    AdvanceKeepsEntries(c, s, s');
  }

  // ----- retrieving a completed joint -----

  lemma {:induction false} MergeSucceeds(c: Config, t: TaskData, data: map<Id, TaskData>, order: seq<Id>)
    requires forall id :: id in order ==> id in data
    requires forall id :: id in data ==> (t.past, data[id].past) in c.lca
    ensures MergeAll(c, t, data, order).Some?
    decreases |order|
  {
    if order != [] {
      MergeSucceeds(c, t, data, order[..|order| - 1]);
    }
  }

  /** Whoever retrieves finds exactly one task per predecessor, and nobody has entered yet. */
  lemma RetrieverFindsAll(c: Config, s: State, pid: Id)
    requires GoodConfig(c) && Inv(c, s) && Retrieving(s, pid)
    ensures var p := s.procs[pid];
      var j, data := p.todo[0], Stored(s.store, (p.task.root, p.todo[0]));
      && ProcOk(c, s, p) && j in c.prev && j in c.next && j != START && |c.prev[j]| > 1
      && !Ent(s, p.task.root, j) && AllSent(c, s, p.task.root, j) && Retr(s, p.task.root, j)
      && |data| == |c.prev[j]| && Pasts(data) == Elements(c.prev[j]) && |Pasts(data)| == |data|
      && Curs(data) == {j} && (p.task.root, j) in s.store
      && (forall id :: id in data ==> (p.retrieving.value.past, data[id].past) in c.lca)
      && TailDrops(p.todo) && OnePerSpot(s) && Ids(s)
  {
    var p := s.procs[pid];
    assert ProcOk(c, s, p);
    var r, u, j := p.task.root, p.task.cur, p.todo[0];
    SuffixTail(p.todo, c.next[u]);
    assert j == c.next[u][|c.next[u]| - |p.todo|];
    assert Edge(c.next, u, j);
    assert Edge(c.prev, j, u);
    assert RetrievesAt(s, pid, r, j);
    assert NodeOk(c, s, r, j);
    JointIsClean(c, u, j);
    var data := Stored(s.store, (r, j));
    StoreCounts(c, s, r, j);
    CursOf(data, j);
    RetrieverIsLast(c, s, pid);
    RetrieverMergesAll(c, u, j, data);
  }

  lemma RetrieverMergesAll(c: Config, u: Name, j: Name, data: map<Id, TaskData>)
    requires LastMerges(c) && CanBeLast(c, u, j) && |c.prev[j]| > 1 && START !in c.prev[j] &&
      Pasts(data) == Elements(c.prev[j])
    ensures forall id :: id in data ==> (u, data[id].past) in c.lca
  {
    assert JoinSafety.MergesAll(c, u, j);
    forall id | id in data ensures (u, data[id].past) in c.lca {
      assert data[id].past in Pasts(data);
    }
  }

  /** Whatever lies above an entered node was entered. */
  lemma {:induction false} EnteredAbove(c: Config, s: State, r: Id, p: seq<Name>, i: nat)
    requires NormalConfig(c) && Inv(c, s) && IsPath(c.next, p) && p[0] != START && i < |p|
    requires Ent(s, r, p[|p| - 1])
    ensures Ent(s, r, p[i])
    decreases |p| - i
  {
    if i < |p| - 1 {
      EnteredAbove(c, s, r, p, i + 1);
      assert EdgeAt(c.next, p, i);
      assert Edge(c.prev, p[i + 1], p[i]);
      if i > 0 {
        assert EdgeAt(c.next, p, i - 1);
        assert Edge(c.prev, p[i], p[i - 1]);
      }
      EntryAbove(c, s, r, p[i + 1], p[i]);
    }
  }

  lemma EntryAbove(c: Config, s: State, r: Id, v: Name, u: Name)
    requires EntriesOk(c, s) && Ent(s, r, v) && v in c.prev && u in c.prev[v] && u != START
    ensures Ent(s, r, u)
  {
    var k :| 0 <= k < |s.entered| && IsEntry(s, k, r, v);
    assert EntryOk(c, s, k);
    var i :| 0 <= i < k && IsEntry(s, i, r, u);
  }

  /** Whoever retrieves has joints left to serve after this one, and nothing below those was entered. */
  lemma RetrieverIsLast(c: Config, s: State, pid: Id)
    requires NormalConfig(c) && Inv(c, s) && Retrieving(s, pid) && ProcOk(c, s, s.procs[pid])
    requires var p := s.procs[pid];
      p.todo[0] in c.prev && START !in c.prev[p.todo[0]] && AllSent(c, s, p.task.root, p.todo[0]) &&
        Edge(c.next, p.task.cur, p.todo[0])
    ensures CanBeLast(c, s.procs[pid].task.cur, s.procs[pid].todo[0])
  {
    var p := s.procs[pid];
    var r, u, j := p.task.root, p.task.cur, p.todo[0];
    forall v, b | v in c.prev[j] && v != u && ServedAfter(c, u, j, b) ensures !Reach(c.next, b, v) {
      if Reach(c.next, b, v) {
        var path :| PathFromTo(c.next, path, b, v);
        assert Sent(c, s, r, v, j);
        assert Edge(c.next, u, b);
        assert Edge(c.prev, b, u);
        EnteredAbove(c, s, r, path, 0);
        assert NodeOk(c, s, r, b);
        assert Sent(c, s, r, u, b);
        LaterIsPending(c, s, pid, b);
      }
    }
  }

  lemma LaterIsPending(c: Config, s: State, pid: Id, b: Name)
    requires Retrieving(s, pid) && ProcOk(c, s, s.procs[pid]) && Distinct(c.next[s.procs[pid].task.cur])
    requires ServedAfter(c, s.procs[pid].task.cur, s.procs[pid].todo[0], b)
    ensures Pend(s, s.procs[pid].task.root, s.procs[pid].task.cur, b)
  {
    var p := s.procs[pid];
    var u := p.task.cur;
    var first := |c.next[u]| - |p.todo|;
    var i, k :| 0 <= i < k < |c.next[u]| && c.next[u][i] == p.todo[0] && c.next[u][k] == b;
    assert c.next[u][first] == p.todo[0];
    assert i == first;
    assert p.todo[1..][k - first - 1] == b;
    assert WaitsIn(s, pid, p.task.root, u, b);
  }

  lemma CursOf(data: map<Id, TaskData>, j: Name)
    requires |data| > 0 && forall id :: id in data ==> data[id].cur == j
    ensures Curs(data) == {j}
  {
    assert data != map[];
    var id :| id in data;
    assert data[id].cur in Curs(data);
  }

  lemma JoinEffect(c: Config, s: State, pid: Id, m: TaskData, o: Origin)
    requires Retrieving(s, pid) && OnePerSpot(s) && TailDrops(s.procs[pid].todo) && Ids(s) && ProcOk(c, s, s.procs[pid])
    requires m.root == s.procs[pid].task.root && m.cur == s.procs[pid].todo[0]
    ensures var taken := s.(store := s.store - {(m.root, m.cur)});
      var s' := Advance(Dispatch(taken, m, o), pid);
      && EnterEffect(s, s', m.root, m.cur)
      && (forall r, u, j :: Pend(s', r, u, j) <==> Pend(s, r, u, j))
      && (forall r, j :: Retr(s', r, j) <==> Retr(s, r, j) && !(r == m.root && j == m.cur))
      && s'.store == taken.store && s'.roots == s.roots
  {
    var s2 := Dispatch(s.(store := s.store - {(m.root, m.cur)}), m, o);
    TakenEffect(s, m, o);
    SameRunning(s2, Advance(s2, pid));
    JoinAdvances(s, s2, pid);
  }

  /** The controller that retrieved moves on: its joint was not pending any more, and its retrieval is over. */
  lemma JoinAdvances(s: State, s2: State, pid: Id)
    requires Retrieving(s, pid) && OnePerSpot(s) && TailDrops(s.procs[pid].todo) && s2.procs == s.procs
    requires var p := s.procs[pid];
      p.retrieving.value.root == p.task.root && p.retrieving.value.cur == p.todo[0]
    ensures var p, s' := s.procs[pid], Advance(s2, pid);
      && (forall r, u, j :: Pend(s', r, u, j) <==> Pend(s, r, u, j))
      && (forall r, j :: Retr(s', r, j) <==> Retr(s, r, j) && !(r == p.task.root && j == p.todo[0]))
  {
    SameProcs(s, s2);
    ProcSpots(s, s2);
    AdvancePend(s2, pid);
    AdvanceRetr(s2, pid);
    NotPending(s, pid);
  }

  /** Taking a joint out of the store and submitting one task, as far as the controllers go on unchanged. */
  lemma TakenEffect(s: State, m: TaskData, o: Origin)
    requires Ids(s)
    ensures var s2 := Dispatch(s.(store := s.store - {(m.root, m.cur)}), m, o);
      && EnterEffect(s, s2, m.root, m.cur) && s2.procs == s.procs
      && (forall r, u, j :: Pend(s2, r, u, j) <==> Pend(s, r, u, j)) &&
           (forall r, j :: Retr(s2, r, j) <==> Retr(s, r, j))
  {
    var taken := s.(store := s.store - {(m.root, m.cur)});
    SameRunning(s, taken);
    DispatchEnt(taken, m, o);
    DispatchBusy(taken, m, o);
    SameProcs(s, Dispatch(taken, m, o));
  }

  /** Two states with the same controllers have them at the same, single spots. */
  lemma ProcSpots(s: State, s': State)
    requires OnePerSpot(s) && s'.procs == s.procs
    ensures ProcsApart(s')
  {
    assert forall k, r, j :: RetrievesAt(s', k, r, j) <==> RetrievesAt(s, k, r, j);
  }

  lemma NotPending(s: State, pid: Id)
    requires Retrieving(s, pid) && OnePerSpot(s) && TailDrops(s.procs[pid].todo)
    ensures !Pend(s, s.procs[pid].task.root, s.procs[pid].task.cur, s.procs[pid].todo[0])
  {
    var p := s.procs[pid];
    if Pend(s, p.task.root, p.task.cur, p.todo[0]) {
      var k :| WaitsIn(s, k, p.task.root, p.task.cur, p.todo[0]);
      assert SameSpot(s.procs[k].task, s.procs[pid].task);
    }
  }

  lemma TakeShape(c: Config, s: State, key: (Id, Name))
    requires Shape(c, s)
    ensures Shape(c, s.(store := s.store - {key}))
  {
    var s' := s.(store := s.store - {key});
    SameRunning(s, s');
    SpotsOf(s, s');
    forall k | k in s'.procs ensures ProcOk(c, s', s'.procs[k]) {
      assert ProcOk(c, s, s.procs[k]);
    }
    forall id | id in s'.running ensures PlaceOk(c, s', s'.running[id]) {
      assert PlaceOk(c, s, s.running[id]);
    }
    AdvanceKeepsEntries(c, s, s');
  }

  /** A retrieval that finds everything submits the merged task. */
  lemma RetrieveResult(c: Config, s: State, pid: Id, order: seq<Id>) returns (m: TaskData, o: Origin)
    requires Enabled(c, s, Retrieve(pid, order)) && ProcOk(c, s, s.procs[pid])
    requires var p := s.procs[pid];
      var j, data := p.todo[0], Stored(s.store, (p.task.root, p.todo[0]));
      && |data| == |c.prev[j]| > 1 && |Pasts(data)| == |data| && |Curs(data)| == 1
      && forall id :: id in data ==> (p.retrieving.value.past, data[id].past) in c.lca
    ensures m.root == s.procs[pid].task.root && m.cur == s.procs[pid].todo[0]
    ensures ApplyRetrieve(c, s, pid, order) == Advance(Dispatch(s.(store := s.store - {(m.root, m.cur)}), m, o), pid)
  {
    var p := s.procs[pid];
    var data := Stored(s.store, (p.task.root, p.todo[0]));
    MergeSucceeds(c, p.retrieving.value, data, order);
    JoinSafety.MergeKeepsPlace(c, p.retrieving.value, data, order);
    m := MergeAll(c, p.retrieving.value, data, order).value;
    o := FromReturn(Pasts(data));
  }

  lemma RetrieveJoins(c: Config, s: State, pid: Id, order: seq<Id>)
    requires GoodConfig(c) && Inv(c, s) && Enabled(c, s, Retrieve(pid, order))
    ensures Inv(c, ApplyRetrieve(c, s, pid, order))
  {
    RetrieverFindsAll(c, s, pid);
    var m, o := RetrieveResult(c, s, pid, order);
    JoinShape(c, s, pid, m, o);
    JoinNodes(c, s, pid, m, o);
  }

  lemma JoinShape(c: Config, s: State, pid: Id, m: TaskData, o: Origin)
    requires GoodConfig(c) && Shape(c, s) && Retrieving(s, pid)
    requires m.root in s.roots && m.cur in c.next && m.cur in c.prev && m.cur != START
    requires !Ent(s, m.root, m.cur) && AllSent(c, s, m.root, m.cur)
    ensures Shape(c, Advance(Dispatch(s.(store := s.store - {(m.root, m.cur)}), m, o), pid))
  {
    var taken := s.(store := s.store - {(m.root, m.cur)});
    TakeShape(c, s, (m.root, m.cur));
    SameRunning(s, taken);
    PredecessorsEntered(c, s, m.root, m.cur);
    DispatchShape(c, taken, m, o);
    AdvanceShape(c, Dispatch(taken, m, o), pid);
  }

  lemma JoinNodes(c: Config, s: State, pid: Id, m: TaskData, o: Origin)
    requires Inverse(c.next, c.prev) && AllNodesOk(c, s) && END in c.next && c.next[END] == []
    requires Retrieving(s, pid) && OnePerSpot(s) && TailDrops(s.procs[pid].todo) && Ids(s) && ProcOk(c, s, s.procs[pid])
    requires m.root == s.procs[pid].task.root && m.cur == s.procs[pid].todo[0] && m.cur in c.prev && m.cur != START
    requires !Ent(s, m.root, m.cur) && AllSent(c, s, m.root, m.cur)
    ensures AllNodesOk(c, Advance(Dispatch(s.(store := s.store - {(m.root, m.cur)}), m, o), pid))
  {
    JoinEffect(c, s, pid, m, o);
    var s' := Advance(Dispatch(s.(store := s.store - {(m.root, m.cur)}), m, o), pid);
    JoinedSent(c, s, s', m.root, m.cur);
    assert AllSent(c, s', m.root, m.cur);
    EnteredNode(c, s', m.root, m.cur);
    JoinOthers(c, s, s', m.root, m.cur, s.procs[pid].task.cur);
  }

  lemma PredecessorsEntered(c: Config, s: State, r: Id, j: Name)
    requires j in c.prev && AllSent(c, s, r, j)
    ensures forall u :: u in c.prev[j] && u != START ==> Ent(s, r, u)
  {
    forall u | u in c.prev[j] && u != START ensures Ent(s, r, u) {
      assert Sent(c, s, r, u, j);
    }
  }

  lemma JoinOthers(c: Config, s: State, s': State, r0: Id, j0: Name, u0: Name)
    requires Inverse(c.next, c.prev) && AllNodesOk(c, s) && s'.roots == s.roots && s'.store == s.store - {(r0, j0)}
    requires SameSent(c, s, s') && EnterEffect(s, s', r0, j0)
    requires forall r, j :: Retr(s', r, j) <==> Retr(s, r, j) && !(r == r0 && j == j0)
    requires j0 in c.prev && NodeOk(c, s', r0, j0)
    ensures AllNodesOk(c, s')
  {
    forall r, j | !(r == r0 && j == j0) ensures SameJoint(s.store, s'.store, r, j) {
      assert (r, j) != (r0, j0);
    }
    OtherNodes(c, s, s', r0, u0, j0);
  }

  // ----- returning -----

  lemma ReturnShape(c: Config, s: State, id: Id)
    requires GoodConfig(c) && Shape(c, s) && Enabled(c, s, Return(id))
    ensures c.next[s.running[id].cur] != []
    ensures Shape(c, ApplyReturn(c, s, id))
  {
    var t := s.running[id];
    assert PlaceOk(c, s, t);
    var s' := ApplyReturn(c, s, id);
    assert s'.entered == s.entered && s'.delivered == s.delivered;
    EntSame(s, s');
    forall k | k in s'.procs ensures ProcOk(c, s', s'.procs[k]) {
      assert k in s.procs ==> ProcOk(c, s, s.procs[k]);
    }
    forall i | i in s'.running ensures PlaceOk(c, s', s'.running[i]) {
      assert PlaceOk(c, s, s.running[i]);
    }
    ReturnSpots(c, s, id);
    AdvanceKeepsEntries(c, s, s');
  }

  lemma EntSame(s: State, s': State)
    requires s'.entered == s.entered
    ensures forall r, j :: Ent(s', r, j) <==> Ent(s, r, j)
  {
    forall r, j ensures Ent(s', r, j) <==> Ent(s, r, j) {
      assert forall i :: 0 <= i < |s.entered| ==> (IsEntry(s', i, r, j) <==> IsEntry(s, i, r, j));
    }
  }

  lemma ReturnSpots(c: Config, s: State, id: Id)
    requires OnePerSpot(s) && Ids(s) && Enabled(c, s, Return(id))
    ensures OnePerSpot(ApplyReturn(c, s, id))
  {
    var s' := ApplyReturn(c, s, id);
    assert s.nextId !in s.procs;
    assert forall k, r, j :: RetrievesAt(s', k, r, j) ==> RetrievesAt(s, k, r, j);
    forall i | i in s'.running ensures i in s.running && !SameSpot(s.running[i], s.running[id]) {
      assert i != id;
    }
    forall k | k in s.procs ensures !SameSpot(s.running[id], s.procs[k].task) {
    }
  }

  lemma ReturnEffect(c: Config, s: State, id: Id)
    requires OnePerSpot(s) && Ids(s) && Enabled(c, s, Return(id)) && c.next[s.running[id].cur] != []
    ensures var t, s' := s.running[id], ApplyReturn(c, s, id);
      && (forall r, u :: Busy(s', r, u) <==> Busy(s, r, u) && !(r == t.root && u == t.cur))
      && (forall r, u, j :: Pend(s', r, u, j) <==>
           Pend(s, r, u, j) || (r == t.root && u == t.cur && j in c.next[t.cur]))
      && (forall r, j :: Retr(s', r, j) <==> Retr(s, r, j))
  {
    var t, s' := s.running[id], ApplyReturn(c, s, id);
    assert s.nextId !in s.procs;
    forall r, u ensures Busy(s', r, u) <==> Busy(s, r, u) && !(r == t.root && u == t.cur) {
      assert forall k :: RunsAt(s', k, r, u) <==> RunsAt(s, k, r, u) && k != id;
      assert RunsAt(s, id, t.root, t.cur);
      if Busy(s', r, u) {
        var k :| RunsAt(s', k, r, u);
        assert !SameSpot(s.running[k], s.running[id]);
      }
      if Busy(s, r, u) && !(r == t.root && u == t.cur) {
        var k :| RunsAt(s, k, r, u);
        assert RunsAt(s', k, r, u);
      }
    }
    ReturnPends(c, s, id);
  }

  lemma ReturnPends(c: Config, s: State, id: Id)
    requires Ids(s) && Enabled(c, s, Return(id)) && c.next[s.running[id].cur] != []
    ensures var t, s' := s.running[id], ApplyReturn(c, s, id);
      && (forall r, u, j :: Pend(s', r, u, j) <==>
           Pend(s, r, u, j) || (r == t.root && u == t.cur && j in c.next[t.cur]))
      && (forall r, j :: Retr(s', r, j) <==> Retr(s, r, j))
  {
    var t, s' := s.running[id], ApplyReturn(c, s, id);
    assert s.nextId !in s.procs;
    forall r, u, j
      ensures Pend(s', r, u, j) <==> Pend(s, r, u, j) || (r == t.root && u == t.cur && j in c.next[t.cur])
    {
      if Pend(s, r, u, j) {
        var k :| WaitsIn(s, k, r, u, j);
        assert WaitsIn(s', k, r, u, j);
      }
      if r == t.root && u == t.cur && j in c.next[t.cur] {
        assert WaitsIn(s', s.nextId, r, u, j);
      }
      if Pend(s', r, u, j) {
        var k :| WaitsIn(s', k, r, u, j);
        assert k == s.nextId || WaitsIn(s, k, r, u, j);
      }
    }
    forall r, j ensures Retr(s', r, j) <==> Retr(s, r, j) {
      assert forall k :: RetrievesAt(s', k, r, j) <==> RetrievesAt(s, k, r, j);
    }
  }

  lemma ReturnKeeps(c: Config, s: State, id: Id)
    requires GoodConfig(c) && Inv(c, s) && Enabled(c, s, Return(id))
    ensures Inv(c, ApplyReturn(c, s, id))
  {
    var t, s' := s.running[id], ApplyReturn(c, s, id);
    ReturnShape(c, s, id);
    ReturnEffect(c, s, id);
    EntSame(s, s');
    assert RunsAt(s, id, t.root, t.cur);
    assert PlaceOk(c, s, t);
    ReturnSent(c, s, s', t);
    AllTransfer(c, s, s');
  }

  lemma ReturnSent(c: Config, s: State, s': State, t: TaskData)
    requires Busy(s, t.root, t.cur) && t.cur != START
    requires forall r, j :: Ent(s', r, j) <==> Ent(s, r, j)
    requires forall r, u :: Busy(s', r, u) <==> Busy(s, r, u) && !(r == t.root && u == t.cur)
    requires t.cur in c.next
    requires forall r, u, j :: Pend(s', r, u, j) <==>
      Pend(s, r, u, j) || (r == t.root && u == t.cur && j in c.next[t.cur])
    ensures SameSent(c, s, s')
  {
  }

  lemma AllTransfer(c: Config, s: State, s': State)
    requires Inverse(c.next, c.prev) && AllNodesOk(c, s) && s'.roots == s.roots && s'.store == s.store
    requires SameSent(c, s, s')
    requires forall r, j :: Ent(s', r, j) <==> Ent(s, r, j)
    requires forall r, j :: Retr(s', r, j) <==> Retr(s, r, j)
    ensures AllNodesOk(c, s')
  {
    forall r, j | r in s'.roots && j in c.next && j != START ensures NodeOk(c, s', r, j) {
      assert NodeOk(c, s, r, j);
      NodeOkTransfer(c, s, s', r, j);
    }
  }
}
