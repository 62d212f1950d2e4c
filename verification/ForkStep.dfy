/** Storing a forked task at its joint keeps the run invariant. */
module ForkStep {
  import opened Graphs
  import opened Wrappers
  import opened Dags
  import opened Protocol
  import opened RunInvariant

  /** A node whose entry, store, retrieval and incoming edges stand as before is as it was. */
  lemma NodeOkTransfer(c: Config, s: State, s': State, r: Id, j: Name)
    requires j in c.prev && NodeOk(c, s, r, j)
    requires Ent(s, r, j) <==> Ent(s', r, j)
    requires Retr(s, r, j) <==> Retr(s', r, j)
    requires ((r, j) in s.store <==> (r, j) in s'.store) && Stored(s.store, (r, j)) == Stored(s'.store, (r, j))
    requires forall u :: Sent(c, s, r, u, j) <==> Sent(c, s', r, u, j)
    ensures NodeOk(c, s', r, j)
  {
    assert AllSent(c, s, r, j) <==> AllSent(c, s', r, j);
    if !Ent(s, r, j) && |c.prev[j]| > 1 {
      assert StoreExact(c, s', r, j);
    }
  }

  /** Dropping the first joint drops every mention of it. */
  ghost predicate TailDrops(todo: seq<Name>) {
    todo != [] && forall j :: j in todo[1..] <==> j in todo && j != todo[0]
  }

  /** A node with a predecessor other than the start lists its predecessors once each, and not the start. */
  lemma JointIsClean(c: Config, u: Name, j: Name)
    requires j in c.prev && CleanPrev(c, j) && u in c.prev[j] && u != START
    ensures Distinct(c.prev[j]) && START !in c.prev[j]
  {
    assert u in Elements(c.prev[j]);
  }

  /** A pending joint has not been served: it is neither entered nor being retrieved for. */
  lemma NotYetSent(c: Config, s: State, pid: Id)
    requires GoodConfig(c) && Inv(c, s) && Working(s, pid)
    ensures var p := s.procs[pid];
      && ProcOk(c, s, p) && p.todo[0] in c.prev && p.todo[0] in c.next && p.todo[0] != START
      && p.task.cur in c.prev[p.todo[0]] && Edge(c.next, p.task.cur, p.todo[0])
      && !Sent(c, s, p.task.root, p.task.cur, p.todo[0])
      && !AllSent(c, s, p.task.root, p.todo[0])
      && NodeOk(c, s, p.task.root, p.todo[0])
      && !Ent(s, p.task.root, p.todo[0]) && !Retr(s, p.task.root, p.todo[0])
      && !Busy(s, p.task.root, p.task.cur) && Ent(s, p.task.root, p.task.cur)
      && Distinct(c.prev[p.todo[0]]) && OnePerSpot(s) && Ids(s)
      && TailDrops(p.todo)
  {
    var p := s.procs[pid];
    assert ProcOk(c, s, p);
    SuffixTail(p.todo, c.next[p.task.cur]);
    var r, u, j := p.task.root, p.task.cur, p.todo[0];
    assert j == c.next[u][|c.next[u]| - |p.todo|];
    assert Edge(c.next, u, j);
    assert Edge(c.prev, j, u);
    assert WaitsIn(s, pid, r, u, j);
    assert Pend(s, r, u, j);
    assert j != START by {
      assert c.prev[j] != [];
    }
    assert NodeOk(c, s, r, j);
    JointIsClean(c, u, j);
  }

  /** With one task per taken edge, the count reaches the list's length exactly when all edges are taken. */
  lemma CountMeansAll(c: Config, j: Name, data: map<Id, TaskData>)
    requires j in c.prev && Distinct(c.prev[j])
    requires forall id :: id in data ==> data[id].past in c.prev[j]
    requires forall a, b :: a in data && b in data && data[a].past == data[b].past ==> a == b
    ensures |data| == |c.prev[j]| <==> Pasts(data) == Elements(c.prev[j])
    ensures |data| == |Pasts(data)|
  {
    InjectiveSize(data);
    ElementsSize(c.prev[j]);
    assert Pasts(data) <= Elements(c.prev[j]);
    SubsetSize(Pasts(data), Elements(c.prev[j]));
  }

  lemma {:induction false} InjectiveSize(data: map<Id, TaskData>)
    requires forall a, b :: a in data && b in data && data[a].past == data[b].past ==> a == b
    ensures |data| == |Pasts(data)|
    decreases |data|
  {
    if data != map[] {
      var id :| id in data;
      var rest := data - {id};
      InjectiveSize(rest);
      PastsOfRest(data, id);
      assert data[id].past !in Pasts(rest);
      assert data.Keys == rest.Keys + {id};
    }
  }

  lemma PastsOfRest(data: map<Id, TaskData>, id: Id)
    requires id in data
    ensures Pasts(data) == Pasts(data - {id}) + {data[id].past}
  {
    var rest := data - {id};
    forall u | u in Pasts(data) ensures u in Pasts(rest) + {data[id].past} {
      var k :| k in data && data[k].past == u;
      assert k == id || (k in rest && rest[k].past == u);
    }
  }

  lemma PutShape(c: Config, s: State, t: TaskData)
    requires GoodConfig(c) && Shape(c, s) && t.root in s.roots && t.uuid == s.nextId
    ensures Shape(c, Put(s, t))
  {
    PutPlaces(c, s, t);
    SpotsOf(s, Put(s, t));
    SameRunning(s, Put(s, t));
    AdvanceKeepsEntries(c, s, Put(s, t));
  }

  lemma PutPlaces(c: Config, s: State, t: TaskData)
    requires RunningOk(c, s) && ProcsOk(c, s)
    ensures RunningOk(c, Put(s, t)) && ProcsOk(c, Put(s, t))
  {
    var s' := Put(s, t);
    SameRunning(s, s');
    forall k | k in s'.procs ensures ProcOk(c, s', s'.procs[k]) {
      assert ProcOk(c, s, s.procs[k]);
    }
    forall id | id in s'.running ensures PlaceOk(c, s', s'.running[id]) {
      assert PlaceOk(c, s, s.running[id]);
    }
  }

  lemma ClaimShape(c: Config, s: State, pid: Id, t: TaskData)
    requires GoodConfig(c) && Shape(c, s) && pid in s.procs && s.procs[pid].retrieving == None
    requires var p := s.procs[pid];
      p.todo != [] && t.root == p.task.root && t.past == p.task.cur && t.cur == p.todo[0] && t.cur in c.prev &&
        |c.prev[t.cur]| > 1
    requires !Retr(s, t.root, t.cur)
    ensures Shape(c, Claim(s, pid, t))
  {
    ClaimPlaces(c, s, pid, t);
    ClaimOnePerSpot(s, pid, t);
    AdvanceKeepsEntries(c, s, Claim(s, pid, t));
    SameRunning(s, Claim(s, pid, t));
  }

  lemma ClaimPlaces(c: Config, s: State, pid: Id, t: TaskData)
    requires RunningOk(c, s) && ProcsOk(c, s) && pid in s.procs
    requires var p := s.procs[pid];
      p.todo != [] && t.root == p.task.root && t.past == p.task.cur && t.cur == p.todo[0] && t.cur in c.prev &&
        |c.prev[t.cur]| > 1
    ensures RunningOk(c, Claim(s, pid, t)) && ProcsOk(c, Claim(s, pid, t))
  {
    var s' := Claim(s, pid, t);
    SameRunning(s, s');
    forall k | k in s'.procs ensures ProcOk(c, s', s'.procs[k]) {
      assert ProcOk(c, s, s.procs[k]);
    }
    forall id | id in s'.running ensures PlaceOk(c, s', s'.running[id]) {
      assert PlaceOk(c, s, s.running[id]);
    }
  }

  lemma ClaimOnePerSpot(s: State, pid: Id, t: TaskData)
    requires OnePerSpot(s) && pid in s.procs && t.root == s.procs[pid].task.root && !Retr(s, t.root, t.cur)
    ensures OnePerSpot(Claim(s, pid, t))
  {
    var s' := Claim(s, pid, t);
    forall i, k, r, j | RetrievesAt(s', i, r, j) && RetrievesAt(s', k, r, j) ensures i == k {
      assert i == pid || RetrievesAt(s, i, r, j);
      assert k == pid || RetrievesAt(s, k, r, j);
    }
  }

  lemma ClaimEffect(s: State, pid: Id, t: TaskData)
    requires pid in s.procs && s.procs[pid].retrieving == None && OnePerSpot(s) && s.procs[pid].todo != []
    requires t.root == s.procs[pid].task.root && t.past == s.procs[pid].task.cur && t.cur == s.procs[pid].todo[0]
    requires forall j :: j in s.procs[pid].todo[1..] <==> j in s.procs[pid].todo && j != s.procs[pid].todo[0]
    ensures forall r, u, j :: Pend(Claim(s, pid, t), r, u, j) <==>
      Pend(s, r, u, j) && !(r == t.root && u == t.past && j == t.cur)
    ensures forall r, j :: Retr(Claim(s, pid, t), r, j) <==> Retr(s, r, j) || (r == t.root && j == t.cur)
  {
    var s' := Claim(s, pid, t);
    forall k, r, u, j
      ensures WaitsIn(s', k, r, u, j) <==> WaitsIn(s, k, r, u, j) && !(r == t.root && u == t.past && j == t.cur)
    {
      if k != pid && k in s.procs {
        assert !SameSpot(s.procs[k].task, s.procs[pid].task);
      }
    }
    forall r, u, j ensures Pend(s', r, u, j) <==> Pend(s, r, u, j) && !(r == t.root && u == t.past && j == t.cur) {
      if Pend(s', r, u, j) {
        var k :| WaitsIn(s', k, r, u, j);
        assert WaitsIn(s, k, r, u, j);
      }
      if Pend(s, r, u, j) && !(r == t.root && u == t.past && j == t.cur) {
        var k :| WaitsIn(s, k, r, u, j);
        assert WaitsIn(s', k, r, u, j);
      }
    }
    forall r, j ensures Retr(s', r, j) <==> Retr(s, r, j) || (r == t.root && j == t.cur) {
      assert RetrievesAt(s', pid, t.root, t.cur);
      if Retr(s', r, j) && !(r == t.root && j == t.cur) {
        var k :| RetrievesAt(s', k, r, j);
        assert RetrievesAt(s, k, r, j);
      }
      if Retr(s, r, j) {
        var k :| RetrievesAt(s, k, r, j);
        assert RetrievesAt(s', k, r, j);
      }
    }
  }

  /** One edge more is taken, and everything else about edges stands. */
  ghost predicate OneMoreSent(c: Config, s: State, s': State, r0: Id, u0: Name, j0: Name) {
    forall r, u, j {:trigger Sent(c, s', r, u, j)} {:trigger Sent(c, s, r, u, j)} ::
      Sent(c, s', r, u, j) <==> Sent(c, s, r, u, j) || (r == r0 && u == u0 && j == j0)
  }

  ghost predicate SameSent(c: Config, s: State, s': State) {
    forall r, u, j {:trigger Sent(c, s', r, u, j)} {:trigger Sent(c, s, r, u, j)} :: Sent(c, s', r, u, j) <==>
      Sent(c, s, r, u, j)
  }

  /** The joint's bookkeeping after storing one more task, whether or not that completes it. */
  lemma StoreNode(c: Config, s: State, s': State, t: TaskData)
    requires Inverse(c.next, c.prev) && t.cur in c.prev && |c.prev[t.cur]| > 1 && t.past in c.prev[t.cur]
    requires Distinct(c.prev[t.cur])
    requires NodeOk(c, s, t.root, t.cur) && !Ent(s, t.root, t.cur) && !Sent(c, s, t.root, t.past, t.cur)
    requires t.uuid !in Stored(s.store, (t.root, t.cur))
    requires s'.store == Put(s, t).store && !Ent(s', t.root, t.cur)
    requires OneMoreSent(c, s, s', t.root, t.past, t.cur)
    requires Retr(s', t.root, t.cur) <==> |s'.store[(t.root, t.cur)]| == |c.prev[t.cur]|
    ensures NodeOk(c, s', t.root, t.cur)
  {
    var r, j := t.root, t.cur;
    var data, data' := Stored(s.store, (r, j)), s'.store[(r, j)];
    assert StoreExact(c, s, r, j);
    forall id | id in data' ensures data'[id].cur == j && Sent(c, s', r, data'[id].past, j) {
      assert id == t.uuid || data'[id] == data[id];
    }
    forall a, b | a in data' && b in data' && data'[a].past == data'[b].past ensures a == b {
      assert a == t.uuid || Sent(c, s, r, data[a].past, j);
      assert b == t.uuid || Sent(c, s, r, data[b].past, j);
    }
    forall u | Sent(c, s', r, u, j) ensures u in Pasts(data') {
      if u == t.past {
        assert data'[t.uuid].past == u;
      } else {
        assert Sent(c, s, r, u, j);
        assert u in Pasts(data);
        var id :| id in data && data[id].past == u;
        assert data'[id].past == u;
      }
    }
    assert StoreExact(c, s', r, j);
    StoreCounts(c, s', r, j);
  }

  /** At an exact joint, full count, all predecessors and all edges taken are the same thing. */
  lemma StoreCounts(c: Config, s: State, r: Id, j: Name)
    requires Inverse(c.next, c.prev) && j in c.prev && Distinct(c.prev[j]) && StoreExact(c, s, r, j)
    ensures var data := Stored(s.store, (r, j));
      && (|data| == |c.prev[j]| <==> AllSent(c, s, r, j))
      && (AllSent(c, s, r, j) ==> Pasts(data) == Elements(c.prev[j]))
      && |data| == |Pasts(data)|
      && forall id :: id in data ==> data[id].past in c.prev[j]
  {
    var data := Stored(s.store, (r, j));
    forall id | id in data ensures data[id].past in c.prev[j] {
      assert Sent(c, s, r, data[id].past, j);
      assert Edge(c.prev, j, data[id].past);
    }
    CountMeansAll(c, j, data);
    if AllSent(c, s, r, j) {
      forall u | u in Elements(c.prev[j]) ensures u in Pasts(data) {
        assert Sent(c, s, r, u, j);
      }
      assert Pasts(data) == Elements(c.prev[j]);
    }
    if Pasts(data) == Elements(c.prev[j]) {
      forall u | u in c.prev[j] ensures Sent(c, s, r, u, j) {
        assert u in Pasts(data);
        var id :| id in data && data[id].past == u;
      }
    }
  }

  ghost predicate SameJoint(a: Store, b: Store, r: Id, j: Name) {
    ((r, j) in b <==> (r, j) in a) && Stored(b, (r, j)) == Stored(a, (r, j))
  }

  ghost predicate SameStoreBut(a: Store, b: Store, r0: Id, j0: Name) {
    forall r, j {:trigger SameJoint(a, b, r, j)} :: !(r == r0 && j == j0) ==> SameJoint(a, b, r, j)
  }

  /** All other nodes are untouched when one edge is taken. */
  lemma OtherNodes(c: Config, s: State, s': State, r0: Id, u0: Name, j0: Name)
    requires Inverse(c.next, c.prev) && AllNodesOk(c, s) && s'.roots == s.roots
    requires OneMoreSent(c, s, s', r0, u0, j0) || SameSent(c, s, s')
    requires forall r, j :: !(r == r0 && j == j0) ==> (Ent(s', r, j) <==> Ent(s, r, j))
    requires forall r, j :: !(r == r0 && j == j0) ==> (Retr(s', r, j) <==> Retr(s, r, j))
    requires SameStoreBut(s.store, s'.store, r0, j0)
    requires j0 in c.prev && (r0 in s.roots ==> NodeOk(c, s', r0, j0))
    ensures AllNodesOk(c, s')
  {
    forall r, j | r in s'.roots && j in c.next && j != START ensures NodeOk(c, s', r, j) {
      if !(r == r0 && j == j0) {
        assert NodeOk(c, s, r, j);
        assert SameJoint(s.store, s'.store, r, j);
        NodeOkTransfer(c, s, s', r, j);
      }
    }
  }

  /** What storing one more task does to the places, edges and retrievals. */
  ghost predicate StoreEffect(c: Config, s: State, s': State, t: TaskData) {
    && s'.roots == s.roots && s'.store == Put(s, t).store
    && (forall r, j :: Ent(s', r, j) <==> Ent(s, r, j))
    && OneMoreSent(c, s, s', t.root, t.past, t.cur)
    && (forall r, j :: !(r == t.root && j == t.cur) ==> (Retr(s', r, j) <==> Retr(s, r, j)))
    && (Retr(s', t.root, t.cur) <==> t.cur in c.prev && |s'.store[(t.root, t.cur)]| == |c.prev[t.cur]|)
  }

  lemma StoreKeepsNodes(c: Config, s: State, s': State, t: TaskData)
    requires Inverse(c.next, c.prev) && AllNodesOk(c, s) && Ids(s) && t.uuid == s.nextId
    requires t.cur in c.prev && |c.prev[t.cur]| > 1 && t.past in c.prev[t.cur] && Distinct(c.prev[t.cur])
    requires NodeOk(c, s, t.root, t.cur) && !Ent(s, t.root, t.cur) && !Sent(c, s, t.root, t.past, t.cur)
    requires StoreEffect(c, s, s', t)
    ensures AllNodesOk(c, s')
  {
    FreshUuid(s, t);
    StoreNode(c, s, s', t);
    PutStoreBut(s, t);
    OtherNodes(c, s, s', t.root, t.past, t.cur);
  }

  lemma PutStoreBut(s: State, t: TaskData)
    ensures SameStoreBut(s.store, Put(s, t).store, t.root, t.cur)
  {
    forall r, j | !(r == t.root && j == t.cur) ensures SameJoint(s.store, Put(s, t).store, r, j) {
      assert (r, j) != (t.root, t.cur);
    }
  }

  lemma FreshUuid(s: State, t: TaskData)
    requires Ids(s) && t.uuid == s.nextId
    ensures t.uuid !in Stored(s.store, (t.root, t.cur))
  {
  }

  lemma WaitEffect(c: Config, s: State, pid: Id, t: TaskData)
    requires Working(s, pid) && t == Forked(s, s.procs[pid]) && OnePerSpot(s) && TailDrops(s.procs[pid].todo)
    requires Edge(c.next, t.past, t.cur) && Ent(s, t.root, t.past) && !Busy(s, t.root, t.past) &&
      !Retr(s, t.root, t.cur)
    requires t.cur in c.prev && |Put(s, t).store[(t.root, t.cur)]| != |c.prev[t.cur]|
    ensures StoreEffect(c, s, Advance(Put(s, t), pid), t)
  {
    var s2 := Put(s, t);
    var s' := Advance(s2, pid);
    SameRunning(s, s2);
    SameProcs(s, s2);
    SameRunning(s2, s');
    SpotsOf(s, s2);
    AdvancePend(s2, pid);
    AdvanceRetr(s2, pid);
    SentOneMore(c, s, s', t.root, t.past, t.cur);
  }

  lemma CompleteEffect(c: Config, s: State, pid: Id, t: TaskData)
    requires Working(s, pid) && t == Forked(s, s.procs[pid]) && OnePerSpot(s) && TailDrops(s.procs[pid].todo)
    requires Edge(c.next, t.past, t.cur) && Ent(s, t.root, t.past) && !Busy(s, t.root, t.past) &&
      !Retr(s, t.root, t.cur)
    requires t.cur in c.prev && |Put(s, t).store[(t.root, t.cur)]| == |c.prev[t.cur]|
    ensures StoreEffect(c, s, Claim(Put(s, t), pid, t), t)
  {
    var s2 := Put(s, t);
    var s' := Claim(s2, pid, t);
    SameRunning(s, s2);
    SameProcs(s, s2);
    SameRunning(s2, s');
    SpotsOf(s, s2);
    ClaimEffect(s2, pid, t);
    SentOneMore(c, s, s', t.root, t.past, t.cur);
  }

  lemma SpotsOf(s: State, s': State)
    requires OnePerSpot(s) && s'.running == s.running && s'.procs == s.procs
    ensures OnePerSpot(s')
  {
    assert forall k, r, j :: RetrievesAt(s', k, r, j) <==> RetrievesAt(s, k, r, j);
  }

  /** The last task at a joint is stored, and its controller stays to retrieve. */
  lemma StoreCompletes(c: Config, s: State, pid: Id, t: TaskData)
    requires GoodConfig(c) && Inv(c, s) && Working(s, pid) && t == Forked(s, s.procs[pid]) && t.cur in c.prev &&
      |c.prev[t.cur]| > 1
    requires |Put(s, t).store[(t.root, t.cur)]| == |c.prev[t.cur]|
    ensures Inv(c, Claim(Put(s, t), pid, t))
  {
    NotYetSent(c, s, pid);
    assert AllNodesOk(c, Claim(Put(s, t), pid, t)) by {
      CompleteEffect(c, s, pid, t);
      StoreKeepsNodes(c, s, Claim(Put(s, t), pid, t), t);
    }
    assert Shape(c, Claim(Put(s, t), pid, t)) by {
      PutShape(c, s, t);
      SameProcs(s, Put(s, t));
      ClaimShape(c, Put(s, t), pid, t);
    }
  }

  /** An earlier one is stored, and its controller moves on. */
  lemma StoreWaits(c: Config, s: State, pid: Id, t: TaskData)
    requires GoodConfig(c) && Inv(c, s) && Working(s, pid) && t == Forked(s, s.procs[pid]) && t.cur in c.prev &&
      |c.prev[t.cur]| > 1
    requires |Put(s, t).store[(t.root, t.cur)]| != |c.prev[t.cur]|
    ensures Inv(c, Advance(Put(s, t), pid))
  {
    NotYetSent(c, s, pid);
    assert AllNodesOk(c, Advance(Put(s, t), pid)) by {
      WaitEffect(c, s, pid, t);
      StoreKeepsNodes(c, s, Advance(Put(s, t), pid), t);
    }
    assert Shape(c, Advance(Put(s, t), pid)) by {
      PutShape(c, s, t);
      AdvanceShape(c, Put(s, t), pid);
    }
  }

  /** A joint is stored; its controller moves on, or retrieves if the joint is now complete. */
  lemma ForkStores(c: Config, s: State, pid: Id)
    requires GoodConfig(c) && Inv(c, s) && Enabled(c, s, Fork(pid)) && |c.prev[s.procs[pid].todo[0]]| > 1
    ensures Inv(c, ApplyFork(c, s, pid))
  {
    var t := Forked(s, s.procs[pid]);
    if |Put(s, t).store[(t.root, t.cur)]| == |c.prev[t.cur]| {
      StoreCompletes(c, s, pid, t);
    } else {
      StoreWaits(c, s, pid, t);
    }
  }

  /** Serving a joint takes its edge. */
  lemma SentOneMore(c: Config, s: State, s': State, r0: Id, u0: Name, j0: Name)
    requires Edge(c.next, u0, j0) && Ent(s, r0, u0) && !Busy(s, r0, u0)
    requires forall r, u :: Ent(s', r, u) <==> Ent(s, r, u)
    requires forall r, u :: Busy(s', r, u) <==> Busy(s, r, u)
    requires forall r, u, j :: Pend(s', r, u, j) <==> Pend(s, r, u, j) && !(r == r0 && u == u0 && j == j0)
    ensures OneMoreSent(c, s, s', r0, u0, j0)
  {
  }
}
