/**
 A child of the start node is entered when the root task is submitted, without a join, and never again out of
 a returned task. For a child with a second predecessor this means its join never fires; an edge listed only
 in a predecessor list makes such a child.
 */
module StartEntry {
  import opened Graphs
  import opened Dags
  import opened DagExtraction
  import opened Protocol
  import opened JoinSafety

  /** No task ever stands at the start node once it has been forked from it. */
  ghost predicate AwayFromStart(s: State) {
    && (forall id :: id in s.running ==> s.running[id].cur != START)
    && (forall pid {:trigger s.procs[pid]} :: pid in s.procs ==> s.procs[pid].task.cur != START)
    && (forall key, id {:trigger s.store[key][id]} :: key in s.store && id in s.store[key] ==>
         s.store[key][id].past != START)
    && (forall i :: 0 <= i < |s.entered| ==> NotJoinedFromStart(s.entered[i]))
  }

  ghost predicate NotJoinedFromStart(e: Entry) {
    e.origin.FromReturn? ==> START !in e.origin.pasts
  }

  ghost predicate EntersFromStart(s: State, root: Id, b: Name) {
    Entry(root, b, FromStart) in s.entered
  }

  lemma StartHasNoPredecessor(c: Config, u: Name)
    requires Inverse(c.next, c.prev) && START in c.prev && c.prev[START] == []
    ensures !Edge(c.next, u, START)
  {
    assert !Edge(c.prev, START, u);
  }

  lemma {:induction false} DispatchAllAway(s: State, root: Id, children: seq<Name>)
    requires AwayFromStart(s) && START !in children
    ensures AwayFromStart(DispatchAll(s, root, children))
    decreases |children|
  {
    if children != [] {
      var last := |children| - 1;
      assert children[last] in children;
      DispatchAllAway(s, root, children[..last]);
    }
  }

  lemma DispatchAway(s: State, t: TaskData, origin: Origin)
    requires AwayFromStart(s) && t.cur != START && NotJoinedFromStart(Entry(t.root, t.cur, origin))
    ensures AwayFromStart(Dispatch(s, t, origin))
  {
  }

  lemma AdvanceAway(s: State, pid: Id)
    requires AwayFromStart(s) && pid in s.procs && s.procs[pid].todo != []
    ensures AwayFromStart(Advance(s, pid))
  {
  }

  lemma PutAway(s: State, t: TaskData)
    requires AwayFromStart(s) && t.past != START
    ensures AwayFromStart(Put(s, t))
  {
    var s' := Put(s, t);
    forall key, id | key in s'.store && id in s'.store[key] ensures s'.store[key][id].past != START {
      if key in s.store && id in s.store[key] {
        assert s.store[key][id].past != START;
      }
    }
  }

  lemma ClaimAway(s: State, pid: Id, t: TaskData)
    requires AwayFromStart(s) && pid in s.procs
    ensures AwayFromStart(Claim(s, pid, t))
  {
  }

  lemma ForkAway(c: Config, s: State, pid: Id)
    requires Enabled(c, s, Fork(pid)) && AwayFromStart(s) && s.procs[pid].todo[0] != START
    ensures AwayFromStart(ApplyFork(c, s, pid))
  {
    var t := Forked(s, s.procs[pid]);
    if |c.prev[t.cur]| > 1 {
      StoreForkedAway(s, pid, t);
    } else {
      SentForkedAway(s, pid, t);
    }
  }

  lemma SentForkedAway(s: State, pid: Id, t: TaskData)
    requires AwayFromStart(s) && t.past != START && t.cur != START && pid in s.procs && s.procs[pid].todo != []
    ensures AwayFromStart(Advance(Dispatch(s.(nextId := s.nextId + 1), t, FromReturn({t.past})), pid))
  {
    var s1 := s.(nextId := s.nextId + 1);
    DispatchAway(s1, t, FromReturn({t.past}));
    AdvanceAway(Dispatch(s1, t, FromReturn({t.past})), pid);
  }

  lemma StoreForkedAway(s: State, pid: Id, t: TaskData)
    requires AwayFromStart(s) && t.past != START && pid in s.procs && s.procs[pid].todo != []
    ensures AwayFromStart(Advance(Put(s, t), pid)) && AwayFromStart(Claim(Put(s, t), pid, t))
  {
    PutAway(s, t);
    AdvanceAway(Put(s, t), pid);
    ClaimAway(Put(s, t), pid, t);
  }

  /** The joint a controller serves is never the start node. */
  lemma JointIsNotStart(c: Config, s: State, pid: Id)
    requires Inverse(c.next, c.prev) && START in c.prev && c.prev[START] == []
    requires Safe(c, s) && pid in s.procs && s.procs[pid].todo != []
    ensures s.procs[pid].todo[0] != START
    ensures s.procs[pid].retrieving.Some? ==> s.procs[pid].retrieving.value.cur != START
  {
    assert ProcSafe(c, s.procs[pid]);
    StartHasNoPredecessor(c, s.procs[pid].task.cur);
  }

  lemma RetrieveAway(c: Config, s: State, pid: Id, order: seq<Id>)
    requires Enabled(c, s, Retrieve(pid, order)) && AwayFromStart(s)
    requires s.procs[pid].todo[0] != START && s.procs[pid].retrieving.value.cur != START
    ensures AwayFromStart(ApplyRetrieve(c, s, pid, order))
  {
    var p := s.procs[pid];
    var key := (p.task.root, p.todo[0]);
    var data := Stored(s.store, key);
    var taken := s.(store := s.store - {key});
    assert AwayFromStart(taken);
    forall u | u in Pasts(data) ensures u != START {
      var id :| id in data && data[id].past == u;
      assert s.store[key][id].past != START;
    }
    MergeKeepsPlace(c, p.retrieving.value, data, order);
    AdvanceAway(s, pid);
    AdvanceAway(taken, pid);
    var merged := MergeAll(c, p.retrieving.value, data, order);
    if merged.Some? {
      DispatchAway(taken, merged.value, FromReturn(Pasts(data)));
      AdvanceAway(Dispatch(taken, merged.value, FromReturn(Pasts(data))), pid);
    }
  }

  lemma StepAway(c: Config, s: State, l: Label)
    requires Inverse(c.next, c.prev) && START in c.prev && c.prev[START] == []
    requires Safe(c, s) && AwayFromStart(s) && Enabled(c, s, l)
    ensures AwayFromStart(Apply(c, s, l))
  {
    match l
    case Start(root) =>
      StartHasNoPredecessor(c, START);
      DispatchAllAway(s.(roots := s.roots + {root}), root, c.next[START]);
    case Return(id) => ReturnAway(c, s, id);
    case Fork(pid) =>
      JointIsNotStart(c, s, pid);
      ForkAway(c, s, pid);
    case Retrieve(pid, order) =>
      JointIsNotStart(c, s, pid);
      RetrieveAway(c, s, pid, order);
    case Lose(id) => FaultAway(c, s, l);
    case Duplicate(id) => FaultAway(c, s, l);
    case StoreFails(pid) => AdvanceAway(s, pid);
    case RetrieveFails(pid) => AdvanceAway(s, pid);
    case Crash(pid) => FaultAway(c, s, l);
    case Expire(root, joint) => FaultAway(c, s, l);
  }

  lemma FaultAway(c: Config, s: State, l: Label)
    requires AwayFromStart(s) && Enabled(c, s, l) && (l.Lose? || l.Duplicate? || l.Crash? || l.Expire?)
    ensures AwayFromStart(Apply(c, s, l))
  {
  }

  lemma ReturnAway(c: Config, s: State, id: Id)
    requires AwayFromStart(s) && Enabled(c, s, Return(id))
    ensures AwayFromStart(ApplyReturn(c, s, id))
  {
  }

  lemma {:induction false} RunAway(c: Config, ls: seq<Label>)
    requires Inverse(c.next, c.prev) && START in c.prev && c.prev[START] == []
    requires Exec(c, ls).Some?
    ensures AwayFromStart(Exec(c, ls).value)
  {
    if ls != [] {
      RunAway(c, ls[..|ls| - 1]);
      JoinSafe(c, ls[..|ls| - 1]);
      StepAway(c, Exec(c, ls[..|ls| - 1]).value, ls[|ls| - 1]);
    }
  }

  /** In every run, lossy or not, a child of the start node is never entered out of a returned task. */
  lemma ChildOfStartNeverJoined(c: Config, ls: seq<Label>, i: nat)
    requires Inverse(c.next, c.prev) && START in c.prev && c.prev[START] == []
    requires Exec(c, ls).Some? && i < |Exec(c, ls).value.entered|
    requires Edge(c.next, START, Exec(c, ls).value.entered[i].service)
    ensures Exec(c, ls).value.entered[i].origin.FromStart?
  {
    var e := Exec(c, ls).value.entered[i];
    RunAway(c, ls);
    JoinSafe(c, ls);
    assert NotJoinedFromStart(e) && EntrySafe(c, e);
    assert Edge(c.prev, e.service, START);
  }

  lemma {:induction false} DispatchAllEnters(s: State, root: Id, children: seq<Name>, i: nat)
    requires i < |children|
    ensures EntersFromStart(DispatchAll(s, root, children), root, children[i])
    decreases |children|
  {
    var rest, last := children[..|children| - 1], children[|children| - 1];
    var before := DispatchAll(s, root, rest);
    var after := DispatchAll(s, root, children);
    assert after.entered == before.entered + [Entry(root, last, FromStart)];
    if i < |rest| {
      DispatchAllEnters(s, root, rest, i);
      assert Entry(root, children[i], FromStart) in before.entered;
    } else {
      assert after.entered[|before.entered|] == Entry(root, children[i], FromStart);
    }
  }

  /** Submitting a root task enters every child of the start node at once. */
  lemma StartEntersChildren(c: Config, s: State, root: Id, b: Name)
    requires Enabled(c, s, Start(root)) && Edge(c.next, START, b)
    ensures EntersFromStart(Apply(c, s, Start(root)), root, b)
  {
    var i :| 0 <= i < |c.next[START]| && c.next[START][i] == b;
    DispatchAllEnters(s.(roots := s.roots + {root}), root, c.next[START], i);
  }

  lemma TwoMembers(s: seq<Name>, x: Name, y: Name)
    requires x in s && y in s && x != y
    ensures |s| > 1
  {
    var i :| 0 <= i < |s| && s[i] == x;
    var k :| 0 <= k < |s| && s[k] == y;
  }

  /**
   An edge listed only in a predecessor list leaves its target also wired to the start node: in the graph built
   from the dictionary both edges are there, so the target has at least two predecessors, and yet whatever
   happens it is only ever entered straight from the start.
   */
  lemma BackReferenceIsNeverJoined(o0: Nodes, nodes: Nodes, lca: map<(Name, Name), Name>, a: Name, b: Name,
                                   ls: seq<Label>)
    requires START !in o0 && Normalised(nodes) && AsMeant(o0, nodes)
    requires b in o0 && a in o0[b].prev && a != START && !HasParent(o0, b)
    ensures Edge(Next(nodes), START, b) && Edge(Next(nodes), a, b) && |nodes[b].prev| > 1
    ensures var c := Config(Next(nodes), Prev(nodes), lca);
            Exec(c, ls).Some? ==> forall e :: e in Exec(c, ls).value.entered && e.service == b ==> e.origin.FromStart?
  {
    assert MeantEdge(o0, START, b) && MeantEdge(o0, a, b);
    assert Edge(Next(nodes), START, b) && Edge(Next(nodes), a, b);
    assert Edge(Prev(nodes), b, START) && Edge(Prev(nodes), b, a);
    TwoMembers(nodes[b].prev, START, a);
    var c := Config(Next(nodes), Prev(nodes), lca);
    if Exec(c, ls).Some? {
      ChildOfStartEntries(c, ls, b);
    }
  }

  lemma ChildOfStartEntries(c: Config, ls: seq<Label>, b: Name)
    requires Inverse(c.next, c.prev) && START in c.prev && c.prev[START] == []
    requires Exec(c, ls).Some? && Edge(c.next, START, b)
    ensures forall e :: e in Exec(c, ls).value.entered && e.service == b ==> e.origin.FromStart?
  {
    var s := Exec(c, ls).value;
    forall e | e in s.entered && e.service == b ensures e.origin.FromStart? {
      var i :| 0 <= i < |s.entered| && s.entered[i] == e;
      ChildOfStartNeverJoined(c, ls, i);
    }
  }
}
