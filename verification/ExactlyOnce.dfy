/** Exactly-once execution of loss-free, duplicate-free runs, under every interleaving of controllers. */
module ExactlyOnce {
  import opened Graphs
  import opened Wrappers
  import opened Dags
  import opened Protocol
  import opened RunInvariant
  import opened ControllerSteps
  import opened ForkStep
  import opened EnterStep
  import opened StartStep

  ghost predicate AllLossless(ls: seq<Label>) {
    forall i :: 0 <= i < |ls| ==> Lossless(ls[i])
  }

  /** A run goes on by a step. */
  lemma ExecNext(c: Config, ls: seq<Label>, l: Label)
    requires Exec(c, ls).Some? && Enabled(c, Exec(c, ls).value, l)
    ensures Exec(c, ls + [l]) == Some(Apply(c, Exec(c, ls).value, l))
    ensures AllLossless(ls) && Lossless(l) ==> AllLossless(ls + [l])
  {
    assert (ls + [l])[..|ls|] == ls;
  }

  lemma StepKeeps(c: Config, s: State, l: Label)
    requires GoodConfig(c) && Inv(c, s) && Enabled(c, s, l) && Lossless(l)
    ensures Inv(c, Apply(c, s, l))
  {
    match l
    case Start(root) => StartKeeps(c, s, root);
    case Return(id) => ReturnKeeps(c, s, id);
    case Fork(pid) =>
      if |c.prev[s.procs[pid].todo[0]]| > 1 {
        ForkStores(c, s, pid);
      } else {
        ForkDirect(c, s, pid);
      }
    case Retrieve(pid, order) => RetrieveJoins(c, s, pid, order);
  }

  lemma InitKeeps(c: Config)
    requires GoodConfig(c)
    ensures Inv(c, INIT)
  {
    forall r, j ensures !Ent(INIT, r, j) {
    }
    forall k, r, j ensures !RetrievesAt(INIT, k, r, j) {
    }
  }

  lemma {:induction false} RunKeeps(c: Config, ls: seq<Label>)
    requires GoodConfig(c) && AllLossless(ls) && Exec(c, ls).Some?
    ensures Inv(c, Exec(c, ls).value)
  {
    if ls == [] {
      InitKeeps(c);
    } else {
      RunKeeps(c, ls[..|ls| - 1]);
      StepKeeps(c, Exec(c, ls[..|ls| - 1]).value, ls[|ls| - 1]);
    }
  }

  // ----- safety -----

  /** The entries of a service, for one root task. */
  ghost function Entries(s: State, r: Id, j: Name): set<int> {
    set i | 0 <= i < |s.entered| && IsEntry(s, i, r, j)
  }

  /**
   No service has been entered twice for a root task, every predecessor of an entered service was entered
   earlier and is no longer running, and the end was delivered at most once.
   */
  ghost predicate AtMostOnce(c: Config, s: State) {
    && EntriesDiffer(s)
    && (forall i :: 0 <= i < |s.entered| ==> s.entered[i].service in c.prev && forall u ::
         u in c.prev[s.entered[i].service] && u != START ==>
      (exists k :: 0 <= k < i && IsEntry(s, k, s.entered[i].root, u)) && !Busy(s, s.entered[i].root, u))
    && (forall i, k :: 0 <= i < k < |s.delivered| ==> s.delivered[i].root != s.delivered[k].root)
  }

  /** No service has been entered twice for a root task. */
  ghost predicate EntriesDiffer(s: State) {
    forall i, k :: 0 <= i < k < |s.entered| ==>
      !(s.entered[i].root == s.entered[k].root && s.entered[i].service == s.entered[k].service)
  }

  lemma EnteredAtMostOnce(c: Config, ls: seq<Label>)
    requires GoodConfig(c) && AllLossless(ls) && Exec(c, ls).Some?
    ensures AtMostOnce(c, Exec(c, ls).value)
  {
    RunKeeps(c, ls);
    var s := Exec(c, ls).value;
    forall i, k | 0 <= i < k < |s.entered|
      ensures !(s.entered[i].root == s.entered[k].root && s.entered[i].service == s.entered[k].service)
    {
      assert EntryOk(c, s, k);
      assert !IsEntry(s, i, s.entered[k].root, s.entered[k].service);
    }
    forall i, u | 0 <= i < |s.entered| && s.entered[i].service in c.prev && u in c.prev[s.entered[i].service] &&
      u != START
      ensures (exists k :: 0 <= k < i && IsEntry(s, k, s.entered[i].root, u)) && !Busy(s, s.entered[i].root, u)
    {
      assert EntryOk(c, s, i);
      EnteredSent(c, s, i, u);
    }
    forall i | 0 <= i < |s.entered| ensures s.entered[i].service in c.prev {
      assert EntryOk(c, s, i);
    }
  }

  lemma EnteredSent(c: Config, s: State, i: int, u: Name)
    requires GoodConfig(c) && Inv(c, s) && 0 <= i < |s.entered| && EntryOk(c, s, i)
    requires u in c.prev[s.entered[i].service]
    ensures Sent(c, s, s.entered[i].root, u, s.entered[i].service)
  {
    var r, j := s.entered[i].root, s.entered[i].service;
    assert IsEntry(s, i, r, j);
    assert Ent(s, r, j);
    assert NodeOk(c, s, r, j);
    assert AllSent(c, s, r, j);
  }

  // ----- no deadlock short of delivery -----

  /** No step is enabled but submitting further root tasks. */
  ghost predicate Quiet(c: Config, s: State) {
    forall l :: Enabled(c, s, l) && Lossless(l) ==> l.Start?
  }

  lemma {:induction false} Enumerate(keys: set<Id>) returns (order: seq<Id>)
    ensures Distinct(order) && Elements(order) == keys
    decreases keys
  {
    if keys == {} {
      order := [];
    } else {
      var k :| k in keys;
      var rest := Enumerate(keys - {k});
      order := rest + [k];
      assert Elements(order) == Elements(rest) + {k};
      assert k !in Elements(rest);
    }
  }

  lemma QuietMeansIdle(c: Config, s: State)
    requires GoodConfig(c) && Inv(c, s) && Quiet(c, s)
    ensures s.running == map[] && s.procs == map[]
  {
    if s.running != map[] {
      var id :| id in s.running;
      assert PlaceOk(c, s, s.running[id]);
      assert Enabled(c, s, Return(id)) && Lossless(Return(id));
    }
    if s.procs != map[] {
      var pid :| pid in s.procs;
      var p := s.procs[pid];
      assert ProcOk(c, s, p);
      if p.retrieving == None {
        NotYetSent(c, s, pid);
        assert Enabled(c, s, Fork(pid)) && Lossless(Fork(pid));
      } else {
        var order := Enumerate(Stored(s.store, (p.task.root, p.todo[0])).Keys);
        assert Enabled(c, s, Retrieve(pid, order)) && Lossless(Retrieve(pid, order));
      }
    }
  }

  /** With nothing in flight, being entered spreads along the graph. */
  lemma {:induction false} IdleMeansEntered(c: Config, s: State, r: Id, j: Name)
    requires GoodConfig(c) && Inv(c, s) && s.running == map[] && s.procs == map[]
    requires r in s.roots && j in c.next && j != START
    requires Closed(c.prev) && Acyclic(c.prev)
    ensures Ent(s, r, j)
    decreases Rank(c.prev, j)
  {
    forall u | u in c.prev[j] ensures Sent(c, s, r, u, j) {
      assert Edge(c.prev, j, u);
      assert Edge(c.next, u, j);
      if u != START {
        RankDrops(c.prev, j, u);
        IdleMeansEntered(c, s, r, u);
        assert forall id :: !RunsAt(s, id, r, u);
        assert forall pid :: !WaitsIn(s, pid, r, u, j);
      }
    }
    assert AllSent(c, s, r, j);
    assert NodeOk(c, s, r, j);
    assert forall pid :: !RetrievesAt(s, pid, r, j);
  }

  /** Every service has been entered exactly once for the root task, and exactly one end task delivered. */
  ghost predicate DeliveredOnce(c: Config, s: State, r: Id) {
    && (forall j :: j in c.next && j != START ==> |Entries(s, r, j)| == 1)
    && (exists i :: 0 <= i < |s.delivered| && s.delivered[i].root == r && s.delivered[i].cur == END)
    && (forall i, k ::
         0 <= i < |s.delivered| && 0 <= k < |s.delivered| && s.delivered[i].root == r == s.delivered[k].root ==> i == k)
  }

  /** With nothing left to do every service has been entered. */
  lemma EverythingEntered(c: Config, s: State, r: Id)
    requires GoodConfig(c) && Inv(c, s) && Quiet(c, s) && r in s.roots
    ensures forall j :: j in c.next && j != START ==> Ent(s, r, j)
  {
    QuietMeansIdle(c, s);
    InverseClosed(c.next, c.prev);
    InverseAcyclic(c.next, c.prev);
    forall j | j in c.next && j != START ensures Ent(s, r, j) {
      IdleMeansEntered(c, s, r, j);
    }
  }

  lemma OneEntry(s: State, r: Id, j: Name)
    requires Ent(s, r, j) && EntriesDiffer(s)
    ensures |Entries(s, r, j)| == 1
  {
    var i :| 0 <= i < |s.entered| && IsEntry(s, i, r, j);
    assert Entries(s, r, j) == {i};
  }

  lemma OneDelivery(s: State, r: Id)
    requires DeliveredOk(s) && Ent(s, r, END)
    ensures exists i :: 0 <= i < |s.delivered| && s.delivered[i].root == r && s.delivered[i].cur == END
    ensures forall i, k ::
      0 <= i < |s.delivered| && 0 <= k < |s.delivered| && s.delivered[i].root == r == s.delivered[k].root ==> i == k
  {
    assert HasDelivery(s, r);
  }

  /**
   A run that can go no further has entered every service and delivered exactly once for every submitted root
   task.
   */
  lemma QuietMeansDelivered(c: Config, ls: seq<Label>, r: Id)
    requires GoodConfig(c) && AllLossless(ls) && Exec(c, ls).Some? && Quiet(c, Exec(c, ls).value)
    requires r in Exec(c, ls).value.roots
    ensures DeliveredOnce(c, Exec(c, ls).value, r)
  {
    var s := Exec(c, ls).value;
    RunKeeps(c, ls);
    EnteredAtMostOnce(c, ls);
    EverythingEntered(c, s, r);
    forall j | j in c.next && j != START ensures |Entries(s, r, j)| == 1 {
      OneEntry(s, r, j);
    }
    OneDelivery(s, r);
  }

  // ----- every run is finite -----

  ghost function Edges(g: Graph): set<(Name, Name)> {
    set a, b | a in g && b in g[a] :: (a, b)
  }

  /** The edges not yet taken, over all root tasks. */
  ghost function Unsent(c: Config, s: State): set<(Id, Name, Name)> {
    set r, u, j | r in s.roots && u in c.next && j in c.next[u] && !Sent(c, s, r, u, j) :: (r, u, j)
  }

  ghost function Retrievers(s: State): set<Id> {
    set pid | pid in s.procs && s.procs[pid].retrieving.Some?
  }

  /** What is left to do: three for an edge not taken, two for a retrieval, one for a running task. */
  ghost function Potential(c: Config, s: State): nat {
    3 * |Unsent(c, s)| + 2 * |Retrievers(s)| + |s.running|
  }

  lemma {:induction false} SizeOfUnion<T>(a: set<T>, b: set<T>)
    ensures |a + b| <= |a| + |b|
    ensures a !! b ==> |a + b| == |a| + |b|
  {
    assert a + b == a + (b - a);
    SubsetSize(b - a, b);
  }

  /** Storing a forked task: one edge fewer, at most one retrieval more. */
  lemma ForkStorePotential(c: Config, s: State, pid: Id)
    requires GoodConfig(c) && Inv(c, s) && Enabled(c, s, Fork(pid)) && |c.prev[s.procs[pid].todo[0]]| > 1
    ensures Potential(c, ApplyFork(c, s, pid)) < Potential(c, s)
  {
    var t := Forked(s, s.procs[pid]);
    NotYetSent(c, s, pid);
    assert ProcOk(c, s, s.procs[pid]);
    ForkStoreUnsent(c, s, pid, t);
    ForkStoreRetrievers(c, s, pid);
  }

  /** Storing takes the forked task's edge and no other. */
  lemma StoreSends(c: Config, s: State, pid: Id, t: TaskData)
    requires Enabled(c, s, Fork(pid)) && t == Forked(s, s.procs[pid]) && |c.prev[t.cur]| > 1
    requires OnePerSpot(s) && TailDrops(s.procs[pid].todo)
    requires Edge(c.next, t.past, t.cur) && Ent(s, t.root, t.past) && !Busy(s, t.root, t.past) &&
      !Retr(s, t.root, t.cur)
    ensures OneMoreSent(c, s, ApplyFork(c, s, pid), t.root, t.past, t.cur) && ApplyFork(c, s, pid).roots == s.roots
  {
    if |Put(s, t).store[(t.root, t.cur)]| == |c.prev[t.cur]| {
      CompleteEffect(c, s, pid, t);
    } else {
      WaitEffect(c, s, pid, t);
    }
  }

  lemma ForkStoreUnsent(c: Config, s: State, pid: Id, t: TaskData)
    requires Enabled(c, s, Fork(pid)) && t == Forked(s, s.procs[pid]) && |c.prev[t.cur]| > 1
    requires OnePerSpot(s) && TailDrops(s.procs[pid].todo) && t.root in s.roots && !Sent(c, s, t.root, t.past, t.cur)
    requires Edge(c.next, t.past, t.cur) && Ent(s, t.root, t.past) && !Busy(s, t.root, t.past) &&
      !Retr(s, t.root, t.cur)
    ensures |Unsent(c, ApplyFork(c, s, pid))| == |Unsent(c, s)| - 1
  {
    StoreSends(c, s, pid, t);
    UnsentShrinks(c, s, ApplyFork(c, s, pid), t.root, t.past, t.cur);
  }

  lemma ForkStoreRetrievers(c: Config, s: State, pid: Id)
    requires Enabled(c, s, Fork(pid)) && |c.prev[s.procs[pid].todo[0]]| > 1
    ensures |Retrievers(ApplyFork(c, s, pid))| <= |Retrievers(s)| + 1
    ensures ApplyFork(c, s, pid).running == s.running
  {
    var t := Forked(s, s.procs[pid]);
    if |Put(s, t).store[(t.root, t.cur)]| == |c.prev[t.cur]| {
      MoreRetrievers(s, Claim(Put(s, t), pid, t), pid);
    } else {
      AdvanceRetrievers(Put(s, t), pid);
      MoreRetrievers(s, Advance(Put(s, t), pid), pid);
    }
  }

  lemma MoreRetrievers(s: State, s': State, pid: Id)
    requires Retrievers(s') <= Retrievers(s) + {pid}
    ensures |Retrievers(s')| <= |Retrievers(s)| + 1
  {
    SubsetSize(Retrievers(s'), Retrievers(s) + {pid});
    SizeOfUnion(Retrievers(s), {pid});
  }

  lemma UnsentShrinks(c: Config, s: State, s': State, r: Id, u: Name, j: Name)
    requires s'.roots == s.roots && OneMoreSent(c, s, s', r, u, j)
    requires r in s.roots && Edge(c.next, u, j) && !Sent(c, s, r, u, j)
    ensures |Unsent(c, s')| == |Unsent(c, s)| - 1
  {
    assert Unsent(c, s') == Unsent(c, s) - {(r, u, j)};
    assert (r, u, j) in Unsent(c, s);
  }

  lemma UnsentSame(c: Config, s: State, s': State)
    requires s'.roots == s.roots && SameSent(c, s, s')
    ensures Unsent(c, s') == Unsent(c, s)
  {
  }

  lemma DispatchRunning(s: State, t: TaskData, o: Origin)
    ensures |Dispatch(s, t, o).running| <= |s.running| + 1
  {
    assert Dispatch(s, t, o).running.Keys <= s.running.Keys + {s.nextId};
    SubsetSize(Dispatch(s, t, o).running.Keys, s.running.Keys + {s.nextId});
    SizeOfUnion(s.running.Keys, {s.nextId});
  }

  /** Serving a joint directly: one edge fewer, at most one running task more. */
  lemma ForkDirectPotential(c: Config, s: State, pid: Id)
    requires GoodConfig(c) && Inv(c, s) && Enabled(c, s, Fork(pid)) && |c.prev[s.procs[pid].todo[0]]| <= 1
    ensures Potential(c, ApplyFork(c, s, pid)) < Potential(c, s)
  {
    var t := Forked(s, s.procs[pid]);
    NotYetSent(c, s, pid);
    assert ProcOk(c, s, s.procs[pid]);
    NotSelf(c, t.past, t.cur);
    ForkDirectUnsent(c, s, pid, t);
    ForkDirectCounts(c, s, pid, t);
  }

  /** Submitting directly takes the task's edge and no other. */
  lemma DirectSends(c: Config, s: State, pid: Id, t: TaskData)
    requires Enabled(c, s, Fork(pid)) && t == Forked(s, s.procs[pid]) && |c.prev[t.cur]| <= 1
    requires OnePerSpot(s) && Ids(s) && TailDrops(s.procs[pid].todo)
    requires Edge(c.next, t.past, t.cur) && Ent(s, t.root, t.past) && !Busy(s, t.root, t.past) && t.past != t.cur
    requires !Ent(s, t.root, t.cur) && t.cur != START && END in c.next && c.next[END] == []
    ensures OneMoreSent(c, s, ApplyFork(c, s, pid), t.root, t.past, t.cur) && ApplyFork(c, s, pid).roots == s.roots
  {
    DirectEffect(c, s, pid, t);
    DirectSent(c, s, ApplyFork(c, s, pid), t.root, t.past, t.cur);
  }

  lemma ForkDirectUnsent(c: Config, s: State, pid: Id, t: TaskData)
    requires Enabled(c, s, Fork(pid)) && t == Forked(s, s.procs[pid]) && |c.prev[t.cur]| <= 1
    requires OnePerSpot(s) && Ids(s) && TailDrops(s.procs[pid].todo) && t.root in s.roots &&
      !Sent(c, s, t.root, t.past, t.cur)
    requires Edge(c.next, t.past, t.cur) && Ent(s, t.root, t.past) && !Busy(s, t.root, t.past) && t.past != t.cur
    requires !Ent(s, t.root, t.cur) && t.cur != START && END in c.next && c.next[END] == []
    ensures |Unsent(c, ApplyFork(c, s, pid))| == |Unsent(c, s)| - 1
  {
    DirectSends(c, s, pid, t);
    UnsentShrinks(c, s, ApplyFork(c, s, pid), t.root, t.past, t.cur);
  }

  lemma ForkDirectCounts(c: Config, s: State, pid: Id, t: TaskData)
    requires Enabled(c, s, Fork(pid)) && t == Forked(s, s.procs[pid]) && |c.prev[t.cur]| <= 1
    ensures |Retrievers(ApplyFork(c, s, pid))| <= |Retrievers(s)|
    ensures |ApplyFork(c, s, pid).running| <= |s.running| + 1
  {
    assert Retrievers(ApplyFork(c, s, pid)) <= Retrievers(s);
    SubsetSize(Retrievers(ApplyFork(c, s, pid)), Retrievers(s));
    DispatchRunning(s.(nextId := s.nextId + 1), t, FromReturn({t.past}));
  }

  /** Retrieving: one retrieval fewer, at most one running task more. */
  lemma RetrievePotential(c: Config, s: State, pid: Id, order: seq<Id>)
    requires GoodConfig(c) && Inv(c, s) && Enabled(c, s, Retrieve(pid, order))
    ensures Potential(c, ApplyRetrieve(c, s, pid, order)) < Potential(c, s)
  {
    RetrieverFindsAll(c, s, pid);
    var m, o := RetrieveResult(c, s, pid, order);
    JoinUnsent(c, s, pid, m, o);
    JoinCounts(s, pid, m, o);
  }

  lemma JoinUnsent(c: Config, s: State, pid: Id, m: TaskData, o: Origin)
    requires Retrieving(s, pid) && OnePerSpot(s) && TailDrops(s.procs[pid].todo) && Ids(s) && ProcOk(c, s, s.procs[pid])
    requires m.root == s.procs[pid].task.root && m.cur == s.procs[pid].todo[0]
    requires !Ent(s, m.root, m.cur) && m.cur != START && END in c.next && c.next[END] == []
    ensures Unsent(c, Advance(Dispatch(s.(store := s.store - {(m.root, m.cur)}), m, o), pid)) == Unsent(c, s)
  {
    JoinEffect(c, s, pid, m, o);
    var s' := Advance(Dispatch(s.(store := s.store - {(m.root, m.cur)}), m, o), pid);
    JoinedSent(c, s, s', m.root, m.cur);
    UnsentSame(c, s, s');
  }

  lemma JoinCounts(s: State, pid: Id, m: TaskData, o: Origin)
    requires Retrieving(s, pid)
    ensures var s' := Advance(Dispatch(s.(store := s.store - {(m.root, m.cur)}), m, o), pid);
      |Retrievers(s')| == |Retrievers(s)| - 1 && |s'.running| <= |s.running| + 1
  {
    var taken := s.(store := s.store - {(m.root, m.cur)});
    DispatchRunning(taken, m, o);
    SameRetrievers(s, Dispatch(taken, m, o));
    AdvanceRetrievers(Dispatch(taken, m, o), pid);
    assert pid in Retrievers(s);
  }

  lemma SameRetrievers(s: State, s': State)
    requires s'.procs == s.procs
    ensures Retrievers(s') == Retrievers(s)
  {
  }

  lemma AdvanceRetrievers(s: State, pid: Id)
    requires pid in s.procs && s.procs[pid].todo != []
    ensures Retrievers(Advance(s, pid)) == Retrievers(s) - {pid} && Advance(s, pid).running == s.running
  {
  }

  lemma ReturnPotential(c: Config, s: State, id: Id)
    requires GoodConfig(c) && Inv(c, s) && Enabled(c, s, Return(id))
    ensures Potential(c, ApplyReturn(c, s, id)) < Potential(c, s)
  {
    var t, s' := s.running[id], ApplyReturn(c, s, id);
    assert PlaceOk(c, s, t);
    ReturnEffect(c, s, id);
    EntSame(s, s');
    assert RunsAt(s, id, t.root, t.cur);
    ReturnSent(c, s, s', t);
    UnsentSame(c, s, s');
    ReturnCounts(c, s, id);
  }

  lemma ReturnCounts(c: Config, s: State, id: Id)
    requires Ids(s) && Enabled(c, s, Return(id))
    ensures var s' := ApplyReturn(c, s, id); Retrievers(s') == Retrievers(s) && |s'.running| == |s.running| - 1
  {
    var s' := ApplyReturn(c, s, id);
    assert s.nextId !in s.procs;
    assert s'.running.Keys == s.running.Keys - {id};
  }

  /** Submitting a root task brings in at most three units for each edge of the graph. */
  lemma StartPotential(c: Config, s: State, root: Id)
    requires GoodConfig(c) && Inv(c, s) && Enabled(c, s, Start(root))
    ensures Potential(c, Apply(c, s, Start(root))) <= Potential(c, s) + 3 * |Edges(c.next)|
  {
    var s1 := s.(roots := s.roots + {root});
    var s' := Apply(c, s, Start(root));
    FreshRoot(c, s, root);
    RootShape(c, s, root);
    SameRunning(s, s1);
    SameProcs(s, s1);
    StartChildren(c);
    DispatchAllKeeps(c, s1, root, c.next[START]);
    SameRetrievers(s, s');
    DispatchAllRunning(s1, root, c.next[START]);
    StartUnsent(c, s, s1, s', root);
  }

  lemma StartChildren(c: Config)
    requires GoodConfig(c)
    ensures forall j :: j in c.next[START] ==>
      j in c.next && j != START && j in c.prev && Elements(c.prev[j]) == {START}
  {
    forall j | j in c.next[START] ensures j in c.next && j != START && j in c.prev && Elements(c.prev[j]) == {START} {
      ChildOfStart(c, j);
    }
  }

  lemma {:induction false} DispatchAllRunning(s: State, root: Id, children: seq<Name>)
    ensures |DispatchAll(s, root, children).running| <= |s.running| + |children|
    decreases |children|
  {
    if children != [] {
      DispatchAllRunning(s, root, children[..|children| - 1]);
      DispatchRunning(DispatchAll(s, root, children[..|children| - 1]),
        TaskData(root, s.nextId, children[|children| - 1], START, {START}), FromStart);
    }
  }

  /** A new root task has taken exactly the start's edges. */
  lemma StartUnsent(c: Config, s: State, s1: State, s': State, root: Id)
    requires GoodConfig(c) && s1 == s.(roots := s.roots + {root}) && root !in s.roots
    requires StartEffect(s1, s', root, c.next[START])
    requires forall x :: !Ent(s, root, x) && !Busy(s, root, x)
    ensures |Unsent(c, s')| + |c.next[START]| <= |Unsent(c, s)| + |Edges(c.next)|
  {
    var later := set a, b | a in c.next && b in c.next[a] && a != START :: (a, b);
    var first := set b | b in c.next[START] :: (START, b);
    assert Edges(c.next) == later + first;
    SizeOfUnion(later, first);
    StartFan(c.next[START], first);
    var mine := set e | e in later :: (root, e.0, e.1);
    TaggedSize(root, later, mine);
    StartUnsentSplit(c, s, s1, s', root, later, mine);
    SizeOfUnion(Unsent(c, s), mine);
  }

  lemma StartUnsentSplit(c: Config, s: State, s1: State, s': State, root: Id,
                         later: set<(Name, Name)>, mine: set<(Id, Name, Name)>)
    requires GoodConfig(c) && s1 == s.(roots := s.roots + {root}) && root !in s.roots
    requires StartEffect(s1, s', root, c.next[START])
    requires forall x :: !Ent(s, root, x) && !Busy(s, root, x)
    requires later == set a, b | a in c.next && b in c.next[a] && a != START :: (a, b)
    requires mine == set e | e in later :: (root, e.0, e.1)
    ensures Unsent(c, s') == Unsent(c, s) + mine
  {
    SameRunning(s, s1);
    SameProcs(s, s1);
    SameProcs(s1, s');
    NewRootSent(c, s1, s', root);
    forall r, u, j ensures (r, u, j) in Unsent(c, s') <==> (r, u, j) in Unsent(c, s) + mine {
      if r == root {
        assert (r, u, j) in mine <==> (u, j) in later;
      } else {
        assert Sent(c, s', r, u, j) <==> Sent(c, s, r, u, j);
      }
    }
  }

  lemma {:induction false} StartFan(children: seq<Name>, fan: set<(Name, Name)>)
    requires Distinct(children) && fan == set b | b in children :: (START, b)
    ensures |fan| == |children|
    decreases |children|
  {
    if children != [] {
      var rest, b := children[..|children| - 1], children[|children| - 1];
      var smaller := set x | x in rest :: (START, x);
      StartFan(rest, smaller);
      assert fan == smaller + {(START, b)};
      assert (START, b) !in smaller;
    }
  }

  lemma {:induction false} TaggedSize(root: Id, pairs: set<(Name, Name)>, triples: set<(Id, Name, Name)>)
    requires triples == set e | e in pairs :: (root, e.0, e.1)
    ensures |triples| == |pairs|
    decreases pairs
  {
    if pairs != {} {
      var e :| e in pairs;
      var smaller := set x | x in pairs - {e} :: (root, x.0, x.1);
      TaggedSize(root, pairs - {e}, smaller);
      assert triples == smaller + {(root, e.0, e.1)};
      assert (root, e.0, e.1) !in smaller;
    }
  }

  lemma StepPotential(c: Config, s: State, l: Label)
    requires GoodConfig(c) && Inv(c, s) && Enabled(c, s, l) && Lossless(l)
    ensures !l.Start? ==> Potential(c, Apply(c, s, l)) < Potential(c, s)
    ensures l.Start? ==> Potential(c, Apply(c, s, l)) <= Potential(c, s) + 3 * |Edges(c.next)|
  {
    match l
    case Start(root) => StartPotential(c, s, root);
    case Return(id) => ReturnPotential(c, s, id);
    case Fork(pid) =>
      if |c.prev[s.procs[pid].todo[0]]| > 1 {
        ForkStorePotential(c, s, pid);
      } else {
        ForkDirectPotential(c, s, pid);
      }
    case Retrieve(pid, order) => RetrievePotential(c, s, pid, order);
  }

  lemma StepRoots(c: Config, s: State, l: Label)
    requires Enabled(c, s, l)
    ensures Apply(c, s, l).roots == if l.Start? then s.roots + {l.root} else s.roots
  {
    match l
    case Start(root) => DispatchAllRoots(s.(roots := s.roots + {root}), root, c.next[START]);
    case Return(id) =>
    case Fork(pid) => ForkRoots(c, s, pid);
    case Retrieve(pid, order) => RetrieveRoots(c, s, pid, order);
    case Lose(id) =>
    case Duplicate(id) =>
    case StoreFails(pid) =>
    case RetrieveFails(pid) =>
    case Crash(pid) =>
    case Expire(root, joint) =>
  }

  lemma ForkRoots(c: Config, s: State, pid: Id)
    requires Enabled(c, s, Fork(pid))
    ensures ApplyFork(c, s, pid).roots == s.roots
  {
  }

  lemma RetrieveRoots(c: Config, s: State, pid: Id, order: seq<Id>)
    requires Enabled(c, s, Retrieve(pid, order))
    ensures ApplyRetrieve(c, s, pid, order).roots == s.roots
  {
    var m := RetrieveOutcome(c, s, pid, order);
  }

  lemma {:induction false} DispatchAllRoots(s: State, root: Id, children: seq<Name>)
    ensures DispatchAll(s, root, children).roots == s.roots
    decreases |children|
  {
    if children != [] {
      DispatchAllRoots(s, root, children[..|children| - 1]);
    }
  }

  lemma BudgetArithmetic(n: nat, e: nat, steps: nat, p: nat, p': nat, started: bool)
    requires steps + p <= n * (1 + 3 * e) && if started then p' <= p + 3 * e else p' < p
    ensures steps + 1 + p' <= (if started then n + 1 else n) * (1 + 3 * e)
  {
    assert (n + 1) * (1 + 3 * e) == n * (1 + 3 * e) + 1 + 3 * e;
  }

  lemma RootCount(c: Config, s: State, l: Label)
    requires Enabled(c, s, l)
    ensures |Apply(c, s, l).roots| == if l.Start? then |s.roots| + 1 else |s.roots|
  {
    StepRoots(c, s, l);
  }

  /** The steps a run can take: for each root task, its submission and three for every edge. */
  ghost function Budget(c: Config, s: State): nat {
    |s.roots| * (1 + 3 * |Edges(c.next)|)
  }

  lemma BudgetKept(c: Config, s: State, s': State, started: bool, steps: nat)
    requires |s'.roots| == if started then |s.roots| + 1 else |s.roots|
    requires if started then Potential(c, s') <= Potential(c, s) + 3 * |Edges(c.next)|
      else Potential(c, s') < Potential(c, s)
    requires steps + Potential(c, s) <= Budget(c, s)
    ensures steps + 1 + Potential(c, s') <= Budget(c, s')
  {
    BudgetArithmetic(|s.roots|, |Edges(c.next)|, steps, Potential(c, s), Potential(c, s'), started);
  }

  /** Every step but a submission uses up potential, so a run is as long as its submissions allow. */
  lemma {:induction false} RunsAreFinite(c: Config, ls: seq<Label>)
    requires GoodConfig(c) && AllLossless(ls) && Exec(c, ls).Some?
    ensures |ls| + Potential(c, Exec(c, ls).value) <= Budget(c, Exec(c, ls).value)
  {
    if ls == [] {
      assert Unsent(c, INIT) == {};
      assert Retrievers(INIT) == {};
    } else {
      var before, l := ls[..|ls| - 1], ls[|ls| - 1];
      var s, s' := Exec(c, before).value, Exec(c, ls).value;
      RunsAreFinite(c, before);
      RunKeeps(c, before);
      StepPotential(c, s, l);
      RootCount(c, s, l);
      BudgetKept(c, s, s', l.Start?, |before|);
    }
  }
}
