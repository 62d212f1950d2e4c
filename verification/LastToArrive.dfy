/** A predecessor that can be the last at a joint is, in some loss-free run: everybody else is served first. */
module LastToArrive {
  import opened Graphs
  import opened Wrappers
  import opened Dags
  import opened Protocol
  import opened RunInvariant
  import opened ForkStep
  import opened EnterStep
  import opened ExactlyOnce
  import opened LosslessRuns
  import opened OnceIff

  /** The step would serve `j` for root task `r` from `u`. */
  ghost predicate Serves(s: State, l: Label, r: Id, u: Name, j: Name) {
    l.Fork? && l.pid in s.procs && s.procs[l.pid].task.root == r && s.procs[l.pid].task.cur == u
    && s.procs[l.pid].todo != [] && s.procs[l.pid].todo[0] == j
  }

  /** Only that step takes the edge. */
  lemma OthersKeepUnsent(c: Config, s: State, l: Label, r: Id, u: Name, j: Name)
    requires GoodConfig(c) && Inv(c, s) && Enabled(c, s, l) && Lossless(l) && !l.Start?
    requires !Sent(c, s, r, u, j) && !Serves(s, l, r, u, j)
    ensures !Sent(c, Apply(c, s, l), r, u, j)
  {
    match l
    case Return(id) =>
      var t, s' := s.running[id], ApplyReturn(c, s, id);
      assert PlaceOk(c, s, t);
      ReturnEffect(c, s, id);
      EntSame(s, s');
      assert RunsAt(s, id, t.root, t.cur);
      ReturnSent(c, s, s', t);
    case Fork(pid) => ForkSends(c, s, pid);
    case Retrieve(pid, order) => RetrieveSendsNothing(c, s, pid, order);
  }

  /** Serving a joint takes its edge and no other. */
  lemma ForkSends(c: Config, s: State, pid: Id)
    requires GoodConfig(c) && Inv(c, s) && Enabled(c, s, Fork(pid))
    ensures var t := Forked(s, s.procs[pid]); OneMoreSent(c, s, ApplyFork(c, s, pid), t.root, t.past, t.cur)
  {
    var t := Forked(s, s.procs[pid]);
    NotYetSent(c, s, pid);
    if |c.prev[t.cur]| <= 1 {
      NotSelf(c, t.past, t.cur);
      DirectSends(c, s, pid, t);
    } else {
      StoreSends(c, s, pid, t);
    }
  }

  lemma RetrieveSendsNothing(c: Config, s: State, pid: Id, order: seq<Id>)
    requires GoodConfig(c) && Inv(c, s) && Enabled(c, s, Retrieve(pid, order))
    ensures SameSent(c, s, ApplyRetrieve(c, s, pid, order))
  {
    RetrieverFindsAll(c, s, pid);
    var m, o := RetrieveResult(c, s, pid, order);
    JoinEffect(c, s, pid, m, o);
    JoinedSent(c, s, ApplyRetrieve(c, s, pid, order), m.root, m.cur);
  }

  /** No loss-free step is left but submissions and serving that joint from there. */
  ghost predicate Waiting(c: Config, s: State, r: Id, u: Name, j: Name) {
    forall l :: Enabled(c, s, l) && Lossless(l) ==> l.Start? || Serves(s, l, r, u, j)
  }

  /** Holding that step back, the run goes on until nothing else is left. */
  lemma {:induction false} HoldBack(c: Config, ls: seq<Label>, r: Id, u: Name, j: Name) returns (all: seq<Label>)
    requires GoodConfig(c) && AllLossless(ls) && Exec(c, ls).Some? && AcyclicConfig(c)
    requires r in Exec(c, ls).value.roots && !Sent(c, Exec(c, ls).value, r, u, j)
    ensures AllLossless(all) && Exec(c, all).Some? && Waiting(c, Exec(c, all).value, r, u, j)
    ensures r in Exec(c, all).value.roots && !Sent(c, Exec(c, all).value, r, u, j)
    decreases WorkLeft(c, Exec(c, ls).value)
  {
    var s := Exec(c, ls).value;
    RunSound(c, ls);
    RunKeeps(c, ls);
    WorkNotNegative(c, s);
    if Waiting(c, s, r, u, j) {
      all := ls;
    } else {
      var l :| Enabled(c, s, l) && Lossless(l) && !l.Start? && !Serves(s, l, r, u, j);
      ExecNext(c, ls, l);
      StepHoldsBack(c, s, l, r, u, j);
      all := HoldBack(c, ls + [l], r, u, j);
    }
  }

  lemma StepHoldsBack(c: Config, s: State, l: Label, r: Id, u: Name, j: Name)
    requires GoodConfig(c) && Inv(c, s) && Sound(c, s) && AcyclicConfig(c)
    requires Enabled(c, s, l) && Lossless(l) && !l.Start? && !Serves(s, l, r, u, j)
    requires r in s.roots && !Sent(c, s, r, u, j)
    ensures WorkLeft(c, Apply(c, s, l)) < WorkLeft(c, s)
    ensures r in Apply(c, s, l).roots && !Sent(c, Apply(c, s, l), r, u, j)
  {
    StepWork(c, s, l);
    StepRoots(c, s, l);
    OthersKeepUnsent(c, s, l, r, u, j);
  }

  /** All that is in flight is the controller held back. */
  lemma OnlyHeldBack(c: Config, s: State, r: Id, u: Name, j: Name)
    requires GoodConfig(c) && Inv(c, s) && Waiting(c, s, r, u, j)
    ensures s.running == map[]
    ensures forall pid {:trigger s.procs[pid]} :: pid in s.procs ==>
      s.procs[pid].retrieving == None && s.procs[pid].task.root == r && s.procs[pid].task.cur == u
      && s.procs[pid].todo != [] && s.procs[pid].todo[0] == j && ProcOk(c, s, s.procs[pid])
  {
    if id :| id in s.running {
      assert PlaceOk(c, s, s.running[id]);
      assert Enabled(c, s, Return(id)) && Lossless(Return(id));
    }
    forall pid | pid in s.procs
      ensures s.procs[pid].retrieving == None && s.procs[pid].task.root == r && s.procs[pid].task.cur == u
        && s.procs[pid].todo != [] && s.procs[pid].todo[0] == j && ProcOk(c, s, s.procs[pid])
    {
      var p := s.procs[pid];
      assert ProcOk(c, s, p);
      if p.retrieving == None {
        NotYetSent(c, s, pid);
        assert Enabled(c, s, Fork(pid)) && Lossless(Fork(pid));
        assert Serves(s, Fork(pid), r, u, j);
      } else {
        var order := Enumerate(Stored(s.store, (p.task.root, p.todo[0])).Keys);
        assert Enabled(c, s, Retrieve(pid, order)) && Lossless(Retrieve(pid, order));
      }
    }
  }

  /** The node lies below the joint held back, or below one that comes after it. */
  ghost predicate Below(c: Config, u: Name, j: Name, n: Name) {
    exists b :: (b == j || ServedAfter(c, u, j, b)) && Reach(c.next, b, n)
  }

  lemma PendingIsBelow(c: Config, s: State, u: Name, j: Name, pid: Id, n: Name)
    requires NormalConfig(c) && pid in s.procs && ProcOk(c, s, s.procs[pid]) && s.procs[pid].retrieving == None
    requires s.procs[pid].task.cur == u && s.procs[pid].todo[0] == j && n in s.procs[pid].todo && n in c.next
    ensures Below(c, u, j, n)
  {
    var p := s.procs[pid];
    var first := |c.next[u]| - |p.todo|;
    var i :| 0 <= i < |p.todo| && p.todo[i] == n;
    assert c.next[u][first] == j && c.next[u][first + i] == n;
    assert i == 0 || ServedAfter(c, u, j, n);
    ReachSelf(c.next, n);
  }

  lemma BelowSpreads(c: Config, u: Name, j: Name, p: Name, n: Name)
    requires Closed(c.next) && Below(c, u, j, p) && Edge(c.next, p, n)
    ensures Below(c, u, j, n)
  {
    var b :| (b == j || ServedAfter(c, u, j, b)) && Reach(c.next, b, p);
    ReachStep(c.next, b, p, n);
  }

  /** Everything else has been entered, and has served its joints. */
  lemma {:induction false} OthersEntered(c: Config, s: State, r: Id, u: Name, j: Name, n: Name)
    requires GoodConfig(c) && Inv(c, s) && Waiting(c, s, r, u, j) && r in s.roots
    requires Closed(c.next) && Closed(c.prev) && Acyclic(c.prev) && n in c.next && n != START && !Below(c, u, j, n)
    ensures Ent(s, r, n)
    decreases Rank(c.prev, n)
  {
    forall p | p in c.prev[n] ensures Sent(c, s, r, p, n) {
      assert Edge(c.prev, n, p);
      assert Edge(c.next, p, n);
      if p != START {
        RankDrops(c.prev, n, p);
        if Below(c, u, j, p) {
          BelowSpreads(c, u, j, p, n);
        }
        OthersEntered(c, s, r, u, j, p);
        EnteredHasSent(c, s, r, u, j, p, n);
      }
    }
    assert AllSent(c, s, r, n);
    assert NodeOk(c, s, r, n);
    OnlyHeldBack(c, s, r, u, j);
    assert forall pid :: !RetrievesAt(s, pid, r, n);
  }

  lemma EnteredHasSent(c: Config, s: State, r: Id, u: Name, j: Name, p: Name, n: Name)
    requires GoodConfig(c) && Inv(c, s) && Waiting(c, s, r, u, j) && Ent(s, r, p) && Edge(c.next, p, n) && n in c.next
    requires !Below(c, u, j, n) || p != u
    ensures Sent(c, s, r, p, n)
  {
    OnlyHeldBack(c, s, r, u, j);
    assert forall id :: !RunsAt(s, id, r, p);
    forall pid ensures !WaitsIn(s, pid, r, p, n) {
      if WaitsIn(s, pid, r, p, n) {
        PendingIsBelow(c, s, u, j, pid, n);
      }
    }
  }

  lemma NotBelow(c: Config, u: Name, j: Name, v: Name)
    requires NormalConfig(c) && Closed(c.next) && CanBeLast(c, u, j) && (v == u || v in c.prev[j])
    ensures !Below(c, u, j, v)
  {
    assert Edge(c.prev, j, u) && (v != u ==> Edge(c.prev, j, v));
    assert Edge(c.next, v, j);
    forall b | (b == j || ServedAfter(c, u, j, b)) && Reach(c.next, b, v) ensures false {
      if b == j {
        ReachStep(c.next, j, v, j);
      } else {
        assert Edge(c.next, u, b);
        ReachStep(c.next, b, u, b);
      }
    }
  }

  /** With everybody else served, the controller held back takes the last edge and is the one that retrieves. */
  lemma LastRetrieves(c: Config, s: State, r: Id, u: Name, j: Name) returns (pid: Id)
    requires GoodConfig(c) && Inv(c, s) && Waiting(c, s, r, u, j) && r in s.roots && !Sent(c, s, r, u, j)
    requires CanBeLast(c, u, j) && |c.prev[j]| > 1 && START !in c.prev[j]
    ensures Enabled(c, s, Fork(pid)) && Inv(c, ApplyFork(c, s, pid))
    ensures var s' := ApplyFork(c, s, pid);
      Retrieving(s', pid) && s'.procs[pid].task.root == r && s'.procs[pid].task.cur == u && s'.procs[pid].todo[0] == j
  {
    InverseClosed(c.next, c.prev);
    InverseAcyclic(c.next, c.prev);
    assert Edge(c.prev, j, u);
    NotBelow(c, u, j, u);
    OthersEntered(c, s, r, u, j, u);
    OnlyHeldBack(c, s, r, u, j);
    assert forall id :: !RunsAt(s, id, r, u);
    assert Pend(s, r, u, j);
    pid :| WaitsIn(s, pid, r, u, j);
    ForkSends(c, s, pid);
    StepKeeps(c, s, Fork(pid));
    var s' := ApplyFork(c, s, pid);
    forall v | v in c.prev[j] ensures Sent(c, s', r, v, j) {
      if v != u {
        assert Edge(c.prev, j, v);
        NotBelow(c, u, j, v);
        OthersEntered(c, s, r, u, j, v);
        EnteredHasSent(c, s, r, u, j, v, j);
      }
    }
    Completes(c, s, pid, r, u, j);
  }

  lemma Completes(c: Config, s: State, pid: Id, r: Id, u: Name, j: Name)
    requires GoodConfig(c) && Inv(c, s) && Waiting(c, s, r, u, j) && Enabled(c, s, Fork(pid)) && r in s.roots
    requires Inv(c, ApplyFork(c, s, pid)) && AllSent(c, ApplyFork(c, s, pid), r, j) && j in c.next && |c.prev[j]| > 1
    requires s.procs[pid].todo[0] == j && s.procs[pid].task.root == r && s.procs[pid].task.cur == u
    ensures var s' := ApplyFork(c, s, pid);
      Retrieving(s', pid) && s'.procs[pid].task.root == r && s'.procs[pid].task.cur == u && s'.procs[pid].todo[0] == j
  {
    var t := Forked(s, s.procs[pid]);
    NotYetSent(c, s, pid);
    ForkRetrieves(c, s, pid, r, j);
    OnlyHeldBack(c, s, r, u, j);
    NoneRetrieves(Put(s, t), pid, r, j);
    assert ApplyFork(c, s, pid) == Claim(Put(s, t), pid, t);
  }

  lemma ForkRetrieves(c: Config, s: State, pid: Id, r: Id, j: Name)
    requires Inverse(c.next, c.prev) && Enabled(c, s, Fork(pid)) && |c.prev[s.procs[pid].todo[0]]| > 1
    requires r in s.roots && j in c.next && j != START && |c.prev[j]| > 1 && !Ent(s, r, j)
    requires AllNodesOk(c, ApplyFork(c, s, pid)) && AllSent(c, ApplyFork(c, s, pid), r, j)
    ensures Retr(ApplyFork(c, s, pid), r, j)
  {
    EntSame(s, ApplyFork(c, s, pid));
    MustRetrieve(c, ApplyFork(c, s, pid), r, j);
  }

  lemma MustRetrieve(c: Config, s: State, r: Id, j: Name)
    requires Inverse(c.next, c.prev) && AllNodesOk(c, s) && r in s.roots && j in c.next && j != START && |c.prev[j]| > 1
    requires AllSent(c, s, r, j) && !Ent(s, r, j)
    ensures Retr(s, r, j)
  {
    assert NodeOk(c, s, r, j);
  }

  lemma NoneRetrieves(s: State, pid: Id, r: Id, j: Name)
    requires pid in s.procs && s.procs[pid].todo != [] && forall k {:trigger s.procs[k]} :: k in s.procs ==>
      s.procs[k].retrieving == None
    ensures !Retr(Advance(s, pid), r, j)
  {
    forall k ensures !RetrievesAt(Advance(s, pid), k, r, j) {
    }
  }

  /** In some loss-free run `u` is the one that retrieves at `j` for the first root task. */
  lemma SomeRunArrives(c: Config, u: Name, j: Name) returns (ls: seq<Label>, pid: Id)
    requires GoodConfig(c) && CanBeLast(c, u, j) && |c.prev[j]| > 1 && START !in c.prev[j]
    ensures AllLossless(ls) && Exec(c, ls).Some?
    ensures var s := Exec(c, ls).value;
      Inv(c, s) && Retrieving(s, pid) && s.procs[pid].task.root == 0 && s.procs[pid].task.cur == u &&
        s.procs[pid].todo[0] == j
  {
    InverseClosed(c.next, c.prev);
    StartRun(c);
    DispatchAllRoots(INIT.(roots := {0}), 0, c.next[START]);
    StartLeavesUnsent(c, u, j);
    var before := HoldBack(c, [Start(0)], 0, u, j);
    var s := Exec(c, before).value;
    RunKeeps(c, before);
    pid := LastRetrieves(c, s, 0, u, j);
    ls := before + [Fork(pid)];
    ExecNext(c, before, Fork(pid));
  }

  lemma StartLeavesUnsent(c: Config, u: Name, j: Name)
    requires GoodConfig(c) && Edge(c.next, u, j) && j in c.prev && START !in c.prev[j]
    ensures Exec(c, [Start(0)]).Some? && !Sent(c, Exec(c, [Start(0)]).value, 0, u, j)
  {
    StartRun(c);
    var s := Exec(c, [Start(0)]).value;
    assert Edge(c.prev, j, u);
    assert u != END;
    AtWorkOrNotEntered(c.next[START], u);
  }
}
