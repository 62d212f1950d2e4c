/** No task ever holds more than its merges can bring; and a graph on which every delivered task lacks a result. */
module ResultsDropped {
  import opened Graphs
  import opened Dags
  import opened Lca
  import opened Protocol
  import opened JoinSafety
  import opened ResultsComplete

  /** The task came to its place from one predecessor and holds no more than merging there can give. */
  ghost predicate ArrivedFrom(c: Config, t: TaskData, u: Name) {
    t.cur in c.prev && CanArrive(c, u, t.cur) && t.held <= Gain(c, u, t.cur)
  }

  ghost predicate Arrived(c: Config, t: TaskData) {
    t.held <= Ancestors(c.prev, t.cur) && (ArrivedAtStart(c, t) || exists u :: ArrivedFrom(c, t, u))
  }

  /** Or it was forked from the start. */
  ghost predicate ArrivedAtStart(c: Config, t: TaskData) {
    Edge(c.next, START, t.cur) && t.held <= {START}
  }

  ghost predicate WithinPast(c: Config, t: TaskData) {
    t.held <= Ancestors(c.prev, t.past)
  }

  ghost predicate Within(c: Config, s: State) {
    && (forall id {:trigger s.running[id]} :: id in s.running ==> Arrived(c, s.running[id]))
    && (forall pid {:trigger s.procs[pid]} :: pid in s.procs ==> ProcWithin(c, s.procs[pid]))
    && (forall key, id {:trigger s.store[key][id]} :: key in s.store && id in s.store[key] ==>
         WithinPast(c, s.store[key][id]))
    && (forall i :: 0 <= i < |s.delivered| ==> s.delivered[i].cur == END && Arrived(c, s.delivered[i]))
  }

  ghost predicate ProcWithin(c: Config, p: Proc) {
    p.task.held <= Ancestors(c.prev, p.task.cur) && (p.retrieving.Some? ==> WithinPast(c, p.retrieving.value))
  }

  lemma AboveStep(c: Config, u: Name, j: Name)
    requires Inverse(c.next, c.prev) && Edge(c.next, u, j)
    ensures Ancestors(c.prev, u) <= Ancestors(c.prev, j)
  {
    InverseClosed(c.next, c.prev);
    ReachEdge(c.prev, j, u);
    forall a | a in Ancestors(c.prev, u) ensures a in Ancestors(c.prev, j) {
      ReachTrans(c.prev, j, u, a);
    }
  }

  lemma GainIsAbove(c: Config, u: Name, j: Name)
    requires Inverse(c.next, c.prev) && Edge(c.next, u, j) && j in c.prev
    ensures Gain(c, u, j) <= Ancestors(c.prev, j)
  {
    InverseClosed(c.next, c.prev);
    AboveStep(c, u, j);
    forall a | a in Gain(c, u, j) && a !in Ancestors(c.prev, u) ensures a in Ancestors(c.prev, j) {
      var w :| w in c.prev[j] && Brings(c, u, w, a);
      assert Edge(c.prev, j, w);
      CopiedAreHeld(c, u, w);
      AboveStep(c, w, j);
    }
  }

  /** What merging leaves held was held before, or was brought by one of the merges. */
  lemma {:induction false} MergeAllWithin(c: Config, t: TaskData, data: map<Id, TaskData>, order: seq<Id>)
    requires forall id :: id in order ==> id in data
    ensures MergeAll(c, t, data, order).Some? ==> forall a :: a in MergeAll(c, t, data, order).value.held ==>
      a in t.held || exists id :: id in order && Brings(c, t.past, data[id].past, a)
    decreases |order|
  {
    if order != [] {
      var rest, last := order[..|order| - 1], order[|order| - 1];
      assert order == rest + [last];
      MergeAllWithin(c, t, data, rest);
      MergeKeepsPlace(c, t, data, rest);
    }
  }

  lemma MergedArrives(c: Config, t: TaskData, data: map<Id, TaskData>, order: seq<Id>)
    requires Inverse(c.next, c.prev) && Edge(c.next, t.past, t.cur) && t.cur in c.prev && WithinPast(c, t)
    requires Elements(order) == data.Keys && Pasts(data) == Elements(c.prev[t.cur])
    requires forall id :: id in order ==> id in data
    requires MergeAll(c, t, data, order).Some?
    ensures Arrived(c, MergeAll(c, t, data, order).value) && ArrivedFrom(c, MergeAll(c, t, data, order).value, t.past)
  {
    var m := MergeAll(c, t, data, order).value;
    MergeKeepsPlace(c, t, data, order);
    MergeAnswers(c, t, data, order);
    RetrieverMerges(c, t.past, t.cur, data, order);
    MergeAllWithin(c, t, data, order);
    GainIsAbove(c, t.past, t.cur);
    forall a | a in m.held ensures a in Gain(c, t.past, t.cur) {
      if a !in t.held {
        var id :| id in order && Brings(c, t.past, data[id].past, a);
        assert data[id].past in Pasts(data);
        BroughtIsNode(c, t.past, t.cur, data[id].past, a);
      } else {
        assert a in Ancestors(c.prev, t.past);
      }
    }
    assert ArrivedFrom(c, m, t.past);
  }

  lemma BroughtIsNode(c: Config, u: Name, j: Name, w: Name, a: Name)
    requires Inverse(c.next, c.prev) && Brings(c, u, w, a) && j in c.prev && w in Elements(c.prev[j])
    ensures w in c.prev[j] && a in c.prev
  {
    InverseClosed(c.next, c.prev);
    CopiedAreHeld(c, u, w);
  }

  lemma DirectArrives(c: Config, t: TaskData)
    requires Inverse(c.next, c.prev) && Edge(c.next, t.past, t.cur) && t.cur in c.prev && |c.prev[t.cur]| <= 1 &&
      WithinPast(c, t)
    ensures Arrived(c, t)
  {
    assert Edge(c.prev, t.cur, t.past);
    AboveStep(c, t.past, t.cur);
    assert ArrivedFrom(c, t, t.past);
  }

  lemma DispatchWithin(c: Config, s: State, t: TaskData, o: Origin)
    requires Within(c, s) && Arrived(c, t)
    ensures Within(c, Dispatch(s, t, o))
  {
  }

  lemma AdvanceWithin(c: Config, s: State, pid: Id)
    requires Within(c, s) && pid in s.procs && s.procs[pid].todo != []
    ensures Within(c, Protocol.Advance(s, pid))
  {
    assert ProcWithin(c, s.procs[pid]);
  }

  lemma SentWithin(c: Config, s: State, t: TaskData, o: Origin, pid: Id)
    requires Within(c, s) && Arrived(c, t) && pid in s.procs && s.procs[pid].todo != []
    ensures Within(c, Protocol.Advance(Dispatch(s, t, o), pid))
  {
    DispatchWithin(c, s, t, o);
    AdvanceWithin(c, Dispatch(s, t, o), pid);
  }

  lemma {:induction false} DispatchAllWithin(c: Config, s: State, root: Id, children: seq<Name>)
    requires Inverse(c.next, c.prev) && Within(c, s) && forall j :: j in children ==> Edge(c.next, START, j)
    ensures Within(c, DispatchAll(s, root, children))
    decreases |children|
  {
    if children != [] {
      var last := children[|children| - 1];
      DispatchAllWithin(c, s, root, children[..|children| - 1]);
      AboveStep(c, START, last);
      InverseClosed(c.next, c.prev);
      ReachSelf(c.prev, START);
      DispatchWithin(c, DispatchAll(s, root, children[..|children| - 1]),
        TaskData(root, s.nextId, last, START, {START}), FromStart);
    }
  }

  lemma PutWithin(c: Config, s: State, t: TaskData)
    requires Within(c, s) && WithinPast(c, t)
    ensures Within(c, Put(s, t))
  {
    var s' := Put(s, t);
    forall key, id | key in s'.store && id in s'.store[key] ensures WithinPast(c, s'.store[key][id]) {
      if key in s.store && id in s.store[key] {
        assert WithinPast(c, s.store[key][id]);
      }
    }
  }

  lemma ClaimWithin(c: Config, s: State, pid: Id, t: TaskData)
    requires Within(c, s) && pid in s.procs && WithinPast(c, t)
    ensures Within(c, Claim(s, pid, t))
  {
    assert ProcWithin(c, s.procs[pid]);
  }

  lemma ForkWithin(c: Config, s: State, pid: Id)
    requires Inverse(c.next, c.prev) && Within(c, s) && Safe(c, s) && Enabled(c, s, Fork(pid))
    ensures Within(c, ApplyFork(c, s, pid))
  {
    var t, after := Forked(s, s.procs[pid]), ApplyFork(c, s, pid);
    assert ProcWithin(c, s.procs[pid]) && ProcSafe(c, s.procs[pid]);
    if |c.prev[t.cur]| > 1 {
      PutWithin(c, s, t);
      if after == Protocol.Advance(Put(s, t), pid) {
        AdvanceWithin(c, Put(s, t), pid);
      } else {
        ClaimWithin(c, Put(s, t), pid, t);
      }
    } else {
      DirectArrives(c, t);
      SentWithin(c, s.(nextId := s.nextId + 1), t, FromReturn({t.past}), pid);
    }
  }

  lemma RetrieveWithin(c: Config, s: State, pid: Id, order: seq<Id>)
    requires Inverse(c.next, c.prev) && Within(c, s) && Safe(c, s) && Enabled(c, s, Retrieve(pid, order))
    ensures Within(c, ApplyRetrieve(c, s, pid, order))
  {
    var p := s.procs[pid];
    var key := (p.task.root, p.todo[0]);
    var data, taken := Stored(s.store, key), Taken(s, key);
    assert ProcSafe(c, p) && ProcWithin(c, p);
    TakeWithin(c, s, key);
    AdvanceWithin(c, s, pid);
    AdvanceWithin(c, taken, pid);
    DropWithin(c, taken, pid);
    var merged := MergeAll(c, p.retrieving.value, data, order);
    if merged.Some? && |Pasts(data)| == |c.prev[p.todo[0]]| {
      StoredPasts(c, s, key, data);
      MergedArrives(c, p.retrieving.value, data, order);
      SentWithin(c, taken, merged.value, FromReturn(Pasts(data)), pid);
    }
  }

  lemma StoredPasts(c: Config, s: State, key: (Id, Name), data: map<Id, TaskData>)
    requires Inverse(c.next, c.prev) && Safe(c, s) && data == Stored(s.store, key) && key.1 in c.prev
    requires |Pasts(data)| == |c.prev[key.1]|
    ensures Pasts(data) == Elements(c.prev[key.1])
  {
    forall u | u in Pasts(data) ensures Edge(c.next, u, key.1) {
      var id :| id in data && data[id].past == u;
      assert StoredSafe(c, key, s.store[key][id]);
    }
    AllPredecessors(c, key.1, Pasts(data));
  }

  lemma TakeWithin(c: Config, s: State, key: (Id, Name))
    requires Within(c, s)
    ensures Within(c, Taken(s, key))
  {
  }

  lemma DropWithin(c: Config, s: State, pid: Id)
    requires Within(c, s)
    ensures Within(c, s.(procs := s.procs - {pid}))
  {
  }

  lemma ReturnWithin(c: Config, s: State, id: Id)
    requires Inverse(c.next, c.prev) && Within(c, s) && Enabled(c, s, Return(id))
    ensures Within(c, ApplyReturn(c, s, id))
  {
    assert Arrived(c, s.running[id]);
    ReachSelf(c.prev, s.running[id].cur);
  }

  lemma StepWithin(c: Config, s: State, l: Label)
    requires Inverse(c.next, c.prev) && Within(c, s) && Safe(c, s) && Enabled(c, s, l)
    ensures Within(c, Apply(c, s, l))
  {
    match l
    case Start(root) => DispatchAllWithin(c, s.(roots := s.roots + {root}), root, c.next[START]);
    case Return(id) => ReturnWithin(c, s, id);
    case Fork(pid) => ForkWithin(c, s, pid);
    case Retrieve(pid, order) => RetrieveWithin(c, s, pid, order);
    case Lose(id) =>
    case Duplicate(id) =>
    case StoreFails(pid) => AdvanceWithin(c, s, pid);
    case RetrieveFails(pid) => AdvanceWithin(c, s, pid);
    case Crash(pid) => DropWithin(c, s, pid);
    case Expire(root, joint) => TakeWithin(c, s, (root, joint));
  }

  /** In every run, lossy or not, no task holds a result its own way and its merges do not bring. */
  lemma {:induction false} RunWithin(c: Config, ls: seq<Label>)
    requires Inverse(c.next, c.prev) && Exec(c, ls).Some?
    ensures Within(c, Exec(c, ls).value)
  {
    if ls != [] {
      RunWithin(c, ls[..|ls| - 1]);
      JoinSafe(c, ls[..|ls| - 1]);
      StepWithin(c, Exec(c, ls[..|ls| - 1]).value, ls[|ls| - 1]);
    }
  }

  /** If no predecessor of the end gains everything, every task ever delivered lacks some service's result. */
  lemma DeliveredLacks(c: Config, ls: seq<Label>, i: nat)
    requires Inverse(c.next, c.prev) && Exec(c, ls).Some? && i < |Exec(c, ls).value.delivered|
    requires END in c.prev && START !in c.prev[END] && forall u :: CanArrive(c, u, END) ==> !Covers(c, u, END)
    ensures !(c.next.Keys - {END} <= Exec(c, ls).value.delivered[i].held)
  {
    RunWithin(c, ls);
    var t := Exec(c, ls).value.delivered[i];
    assert t.cur == END && Arrived(c, t);
    assert Edge(c.next, START, END) <==> Edge(c.prev, END, START);
    var u :| ArrivedFrom(c, t, u);
    assert !Covers(c, u, END);
    var a :| a in Ancestors(c.prev, END) - {END} && a !in Gain(c, u, END);
  }
}
