/** Submitting a new root task keeps the run invariant. */
module StartStep {
  import opened Graphs
  import opened Dags
  import opened Protocol
  import opened RunInvariant
  import opened ForkStep

  /** Nothing is known of a root that was never submitted. */
  lemma FreshRoot(c: Config, s: State, root: Id)
    requires Shape(c, s) && root !in s.roots
    ensures forall j :: !Ent(s, root, j) && !Busy(s, root, j) && !Retr(s, root, j) && (root, j) !in s.store
    ensures forall u, j :: !Pend(s, root, u, j)
  {
    forall j ensures !Ent(s, root, j) && !Busy(s, root, j) && !Retr(s, root, j) && (root, j) !in s.store {
      forall i | 0 <= i < |s.entered| ensures !IsEntry(s, i, root, j) {
        assert EntryOk(c, s, i);
      }
      forall id ensures !RunsAt(s, id, root, j) {
        assert id !in s.running || PlaceOk(c, s, s.running[id]);
      }
      forall pid ensures !RetrievesAt(s, pid, root, j) {
        assert pid !in s.procs || ProcOk(c, s, s.procs[pid]);
      }
      assert (root, j) !in s.store || (root, j).0 in s.roots;
    }
    forall u, j ensures !Pend(s, root, u, j) {
      forall pid ensures !WaitsIn(s, pid, root, u, j) {
        assert pid !in s.procs || ProcOk(c, s, s.procs[pid]);
      }
    }
  }

  lemma RootShape(c: Config, s: State, root: Id)
    requires Shape(c, s)
    ensures Shape(c, s.(roots := s.roots + {root}))
  {
    var s' := s.(roots := s.roots + {root});
    SameRunning(s, s');
    SpotsOf(s, s');
    forall k | k in s'.procs ensures ProcOk(c, s', s'.procs[k]) {
      assert ProcOk(c, s, s.procs[k]);
    }
    forall id | id in s'.running ensures PlaceOk(c, s', s'.running[id]) {
      assert PlaceOk(c, s, s.running[id]);
    }
    assert forall k, r, j :: 0 <= k < |s.entered| ==> (IsEntry(s', k, r, j) <==> IsEntry(s, k, r, j));
    forall i | 0 <= i < |s'.entered| ensures EntryOk(c, s', i) {
      assert EntryOk(c, s, i);
      forall u | u in c.prev[s.entered[i].service] && u != START
        ensures exists k :: 0 <= k < i && IsEntry(s', k, s.entered[i].root, u)
      {
        var k :| 0 <= k < i && IsEntry(s, k, s.entered[i].root, u);
        assert IsEntry(s', k, s.entered[i].root, u);
      }
    }
  }

  /** A child of the start has no other predecessor. */
  lemma ChildOfStart(c: Config, j: Name)
    requires GoodConfig(c) && j in c.next[START]
    ensures j in c.next && j in c.prev && j != START && Edge(c.next, START, j) && Elements(c.prev[j]) == {START}
  {
    assert Edge(c.next, START, j);
    assert Edge(c.prev, j, START);
    assert START in Elements(c.prev[j]) && CleanPrev(c, j);
  }

  /** What submitting the start's children does. */
  ghost predicate StartEffect(s: State, s': State, root: Id, children: seq<Name>) {
    && s'.roots == s.roots && s'.procs == s.procs && s'.store == s.store
    && (forall r, j :: Ent(s', r, j) <==> Ent(s, r, j) || (r == root && j in children))
    && (forall r, j :: Busy(s', r, j) <==> Busy(s, r, j) || (r == root && j in children && j != END))
  }

  lemma {:induction false} DispatchAllKeeps(c: Config, s: State, root: Id, children: seq<Name>)
    requires GoodConfig(c) && Shape(c, s) && root in s.roots && Distinct(children)
    requires forall j :: j in children ==>
      j in c.next && j != START && j in c.prev && Elements(c.prev[j]) == {START} && !Ent(s, root, j)
    ensures Shape(c, DispatchAll(s, root, children))
    ensures StartEffect(s, DispatchAll(s, root, children), root, children)
    decreases |children|
  {
    if children != [] {
      var rest, last := children[..|children| - 1], children[|children| - 1];
      assert children == rest + [last];
      DispatchAllKeeps(c, s, root, rest);
      var mid := DispatchAll(s, root, rest);
      var t := TaskData(root, s.nextId, last, START, {START});
      assert !Ent(mid, root, last);
      assert forall u :: u in c.prev[last] ==> u in Elements(c.prev[last]);
      DispatchShape(c, mid, t, FromStart);
      DispatchEnt(mid, t, FromStart);
      DispatchBusy(mid, t, FromStart);
    }
  }

  /** A node of the new root is entered exactly if it is a child of the start. */
  lemma NewRootNode(c: Config, s: State, s': State, root: Id, j: Name)
    requires GoodConfig(c) && StartEffect(s, s', root, c.next[START]) && j in c.next && j != START
    requires forall x :: !Ent(s, root, x) && !Busy(s, root, x) && !Retr(s, root, x) && (root, x) !in s.store
    requires forall u, x :: !Pend(s, root, u, x)
    ensures NodeOk(c, s', root, j)
  {
    SameProcs(s, s');
    NewRootSent(c, s, s', root);
    if j in c.next[START] {
      ChildOfStart(c, j);
      assert forall u :: u in c.prev[j] ==> u in Elements(c.prev[j]);
      assert AllSent(c, s', root, j);
    } else {
      var u := c.prev[j][0];
      assert Edge(c.prev, j, u);
      assert !Sent(c, s', root, u, j);
      assert !AllSent(c, s', root, j);
      assert forall x :: !Sent(c, s', root, x, j);
      assert |c.prev[j]| > 1 ==> StoreExact(c, s', root, j);
    }
  }

  lemma NewRootSent(c: Config, s: State, s': State, root: Id)
    requires GoodConfig(c) && StartEffect(s, s', root, c.next[START])
    requires forall x :: !Ent(s, root, x) && !Busy(s, root, x)
    ensures forall u, j :: Sent(c, s', root, u, j) <==> u == START && Edge(c.next, START, j)
  {
    forall u, j ensures Sent(c, s', root, u, j) <==> u == START && Edge(c.next, START, j) {
      if u != START && Ent(s', root, u) {
        assert u in c.next[START];
        assert u == END || Busy(s', root, u);
      }
    }
  }

  lemma OtherRootNode(c: Config, s: State, s': State, root: Id, r: Id, j: Name)
    requires START in c.next && StartEffect(s, s', root, c.next[START])
    requires r != root && j in c.prev && NodeOk(c, s, r, j)
    ensures NodeOk(c, s', r, j)
  {
    SameProcs(s, s');
    assert forall u :: Sent(c, s, r, u, j) <==> Sent(c, s', r, u, j);
    NodeOkTransfer(c, s, s', r, j);
  }

  lemma StartKeeps(c: Config, s: State, root: Id)
    requires GoodConfig(c) && Inv(c, s) && Enabled(c, s, Start(root))
    ensures Inv(c, Apply(c, s, Start(root)))
  {
    var s1 := s.(roots := s.roots + {root});
    FreshRoot(c, s, root);
    RootShape(c, s, root);
    SameRunning(s, s1);
    SameProcs(s, s1);
    forall j | j in c.next[START] ensures j in c.next && j != START && Elements(c.prev[j]) == {START} {
      ChildOfStart(c, j);
    }
    DispatchAllKeeps(c, s1, root, c.next[START]);
    var s' := DispatchAll(s1, root, c.next[START]);
    StartNodes(c, s, s1, s', root);
  }

  lemma StartNodes(c: Config, s: State, s1: State, s': State, root: Id)
    requires GoodConfig(c) && AllNodesOk(c, s) && s1 == s.(roots := s.roots + {root})
    requires StartEffect(s1, s', root, c.next[START])
    requires forall x :: !Ent(s, root, x) && !Busy(s, root, x) && !Retr(s, root, x) && (root, x) !in s.store
    requires forall u, x :: !Pend(s, root, u, x)
    ensures AllNodesOk(c, s')
  {
    SameRunning(s, s1);
    SameProcs(s, s1);
    forall r, j | r in s'.roots && j in c.next && j != START ensures NodeOk(c, s', r, j) {
      if r == root {
        NewRootNode(c, s1, s', root, j);
      } else {
        assert NodeOk(c, s, r, j);
        assert forall u :: Sent(c, s, r, u, j) <==> Sent(c, s1, r, u, j);
        NodeOkTransfer(c, s, s1, r, j);
        OtherRootNode(c, s1, s', root, r, j);
      }
    }
  }
}
