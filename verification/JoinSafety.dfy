/** Join safety, under any loss, duplication, crash and interleaving. */
module JoinSafety {
  import opened Graphs
  import opened Dags
  import opened Protocol

  ghost predicate ProcSafe(c: Config, p: Proc) {
    && (forall j :: j in p.todo ==> Edge(c.next, p.task.cur, j))
    && (p.retrieving.Some? ==>
      p.todo != [] && p.retrieving.value.cur == p.todo[0] && p.retrieving.value.past == p.task.cur &&
      p.retrieving.value.root == p.task.root)
  }

  /** A stored task stands at its joint, coming from one of the joint's predecessors. */
  ghost predicate StoredSafe(c: Config, key: (Id, Name), t: TaskData) {
    t.root == key.0 && t.cur == key.1 && Edge(c.next, t.past, key.1)
  }

  /** The search answers for `u` and every predecessor of `j`. */
  ghost predicate MergesAll(c: Config, u: Name, j: Name)
    requires j in c.prev
  {
    u in c.prev[j] && forall v :: v in c.prev[j] ==> (u, v) in c.lca
  }

  /** No predecessor is listed twice, and at a joint one of them can merge the tasks of all. */
  ghost predicate Joinable(c: Config, j: Name)
    requires j in c.prev
  {
    Distinct(c.prev[j]) && (|c.prev[j]| > 1 ==> exists u :: MergesAll(c, u, j))
  }

  /** An entry out of a returned task saw every predecessor, each listed once; the start enters its children only. */
  ghost predicate EntrySafe(c: Config, e: Entry) {
    && (e.origin.FromStart? ==> Edge(c.next, START, e.service))
    && (e.origin.FromReturn? ==>
      e.service in c.prev && Joinable(c, e.service) && e.origin.pasts == Elements(c.prev[e.service]))
  }

  ghost predicate Safe(c: Config, s: State) {
    && (forall pid {:trigger s.procs[pid]} :: pid in s.procs ==> ProcSafe(c, s.procs[pid]))
    && (forall key, id {:trigger s.store[key][id]} :: key in s.store && id in s.store[key] ==>
         StoredSafe(c, key, s.store[key][id]))
    && (forall i :: 0 <= i < |s.entered| ==> EntrySafe(c, s.entered[i]))
  }

  /** As many different predecessors as the list is long means all of them, without repetition. */
  lemma AllPredecessors(c: Config, j: Name, pasts: set<Name>)
    requires Inverse(c.next, c.prev) && j in c.prev && |pasts| == |c.prev[j]|
    requires forall u :: u in pasts ==> Edge(c.next, u, j)
    ensures Distinct(c.prev[j]) && pasts == Elements(c.prev[j])
  {
    forall u | u in pasts ensures u in Elements(c.prev[j]) {
      assert Edge(c.prev, j, u);
    }
    ElementsSize(c.prev[j]);
    SubsetSize(pasts, Elements(c.prev[j]));
  }

  lemma SinglePredecessor(c: Config, u: Name, j: Name)
    requires Inverse(c.next, c.prev) && Edge(c.next, u, j) && |c.prev[j]| <= 1
    ensures j in c.prev && Distinct(c.prev[j]) && {u} == Elements(c.prev[j])
  {
    assert Edge(c.prev, j, u);
  }

  lemma DispatchSafe(c: Config, s: State, t: TaskData, origin: Origin)
    requires Safe(c, s) && EntrySafe(c, Entry(t.root, t.cur, origin))
    ensures Safe(c, Dispatch(s, t, origin))
  {
  }

  lemma {:induction false} DispatchAllSafe(c: Config, s: State, root: Id, children: seq<Name>)
    requires Safe(c, s) && forall b :: b in children ==> Edge(c.next, START, b)
    ensures Safe(c, DispatchAll(s, root, children))
    decreases |children|
  {
    if children != [] {
      DispatchAllSafe(c, s, root, children[..|children| - 1]);
      DispatchSafe(c, DispatchAll(s, root, children[..|children| - 1]),
                   TaskData(root, s.nextId, children[|children| - 1], START, {START}), FromStart);
    }
  }

  lemma AdvanceSafe(c: Config, s: State, pid: Id)
    requires Safe(c, s) && pid in s.procs && s.procs[pid].todo != []
    ensures Safe(c, Advance(s, pid))
  {
    assert ProcSafe(c, s.procs[pid]);
  }

  lemma SentSafe(c: Config, s: State, t: TaskData, origin: Origin, pid: Id)
    requires Safe(c, s) && EntrySafe(c, Entry(t.root, t.cur, origin)) && pid in s.procs && s.procs[pid].todo != []
    ensures Safe(c, Advance(Dispatch(s, t, origin), pid))
  {
    DispatchSafe(c, s, t, origin);
    AdvanceSafe(c, Dispatch(s, t, origin), pid);
  }

  lemma PutSafe(c: Config, s: State, t: TaskData)
    requires Safe(c, s) && Edge(c.next, t.past, t.cur)
    ensures Safe(c, Put(s, t))
  {
    var s' := Put(s, t);
    forall key, id | key in s'.store && id in s'.store[key] ensures StoredSafe(c, key, s'.store[key][id]) {
      if key in s.store && id in s.store[key] {
        assert StoredSafe(c, key, s.store[key][id]);
      }
    }
  }

  lemma ClaimSafe(c: Config, s: State, pid: Id, t: TaskData)
    requires Safe(c, s) && pid in s.procs && s.procs[pid].todo != [] && t.cur == s.procs[pid].todo[0]
    requires t.past == s.procs[pid].task.cur && t.root == s.procs[pid].task.root
    ensures Safe(c, Claim(s, pid, t))
  {
    assert ProcSafe(c, s.procs[pid]);
  }

  lemma ForkSafe(c: Config, s: State, pid: Id)
    requires Inverse(c.next, c.prev) && Safe(c, s) && Enabled(c, s, Fork(pid))
    ensures Safe(c, ApplyFork(c, s, pid))
  {
    var t := Forked(s, s.procs[pid]);
    assert ProcSafe(c, s.procs[pid]);
    assert Edge(c.next, t.past, t.cur);
    if |c.prev[t.cur]| <= 1 {
      SinglePredecessor(c, t.past, t.cur);
      SentSafe(c, s.(nextId := s.nextId + 1), t, FromReturn({t.past}), pid);
    } else {
      PutSafe(c, s, t);
      if |Put(s, t).store[(t.root, t.cur)]| == |c.prev[t.cur]| {
        ClaimSafe(c, Put(s, t), pid, t);
      } else {
        AdvanceSafe(c, Put(s, t), pid);
      }
    }
  }

  lemma {:induction false} MergeKeepsPlace(c: Config, t: TaskData, data: map<Id, TaskData>, order: seq<Id>)
    requires forall id :: id in order ==> id in data
    ensures MergeAll(c, t, data, order).Some? ==>
      MergeAll(c, t, data, order).value == t.(held := MergeAll(c, t, data, order).value.held)
    decreases |order|
  {
    if order != [] {
      MergeKeepsPlace(c, t, data, order[..|order| - 1]);
    }
  }

  /** A merge that does not raise found a common ancestor for every task. */
  lemma {:induction false} MergeAnswers(c: Config, t: TaskData, data: map<Id, TaskData>, order: seq<Id>)
    requires (forall id :: id in order ==> id in data) && MergeAll(c, t, data, order).Some?
    ensures forall id :: id in order ==> (t.past, data[id].past) in c.lca
    decreases |order|
  {
    if order != [] {
      MergeAnswers(c, t, data, order[..|order| - 1]);
      MergeKeepsPlace(c, t, data, order[..|order| - 1]);
    }
  }

  lemma TakenSafe(c: Config, s: State, key: (Id, Name))
    requires Safe(c, s)
    ensures Safe(c, Taken(s, key))
  {
  }

  lemma DropSafe(c: Config, s: State, pid: Id)
    requires Safe(c, s)
    ensures Safe(c, s.(procs := s.procs - {pid}))
  {
  }

  /** What is stored at a joint came from its predecessors. */
  lemma StoredFromPredecessors(c: Config, s: State, key: (Id, Name))
    requires Safe(c, s)
    ensures forall u :: u in Pasts(Stored(s.store, key)) ==> Edge(c.next, u, key.1)
  {
    var data := Stored(s.store, key);
    forall u | u in Pasts(data) ensures Edge(c.next, u, key.1) {
      var id :| id in data && data[id].past == u;
      assert StoredSafe(c, key, s.store[key][id]);
    }
  }

  lemma RetrieveSafe(c: Config, s: State, pid: Id, order: seq<Id>)
    requires Inverse(c.next, c.prev) && Safe(c, s) && Enabled(c, s, Retrieve(pid, order))
    ensures Safe(c, ApplyRetrieve(c, s, pid, order))
  {
    var p := s.procs[pid];
    assert ProcSafe(c, p);
    var key := (p.task.root, p.todo[0]);
    var data := Stored(s.store, key);
    TakenSafe(c, s, key);
    AdvanceSafe(c, s, pid);
    AdvanceSafe(c, Taken(s, key), pid);
    DropSafe(c, Taken(s, key), pid);
    var merged := MergeAll(c, p.retrieving.value, data, order);
    if |Pasts(data)| == |c.prev[key.1]| && merged.Some? {
      MergedSafe(c, s, pid, order);
      SentSafe(c, Taken(s, key), merged.value, FromReturn(Pasts(data)), pid);
    }
  }

  /** A retrieval that merges enters the joint with a task from every predecessor. */
  lemma MergedSafe(c: Config, s: State, pid: Id, order: seq<Id>)
    requires Inverse(c.next, c.prev) && Safe(c, s) && Enabled(c, s, Retrieve(pid, order))
    requires var p := s.procs[pid];
      var data := Stored(s.store, (p.task.root, p.todo[0]));
      |Pasts(data)| == |c.prev[p.todo[0]]| && MergeAll(c, p.retrieving.value, data, order).Some?
    ensures var p := s.procs[pid];
      var data := Stored(s.store, (p.task.root, p.todo[0]));
      var m := MergeAll(c, p.retrieving.value, data, order).value;
      EntrySafe(c, Entry(m.root, m.cur, FromReturn(Pasts(data))))
  {
    var p := s.procs[pid];
    var key := (p.task.root, p.todo[0]);
    var data := Stored(s.store, key);
    assert ProcSafe(c, p);
    StoredFromPredecessors(c, s, key);
    AllPredecessors(c, key.1, Pasts(data));
    MergeKeepsPlace(c, p.retrieving.value, data, order);
    MergeAnswers(c, p.retrieving.value, data, order);
    RetrieverMerges(c, p.task.cur, key.1, data, order);
  }

  /** Whoever retrieves comes from a predecessor that can merge with all. */
  lemma RetrieverMerges(c: Config, u: Name, j: Name, data: map<Id, TaskData>, order: seq<Id>)
    requires Inverse(c.next, c.prev) && Edge(c.next, u, j) && j in c.prev
    requires Elements(order) == data.Keys && Pasts(data) == Elements(c.prev[j])
    requires forall id :: id in order ==> id in data && (u, data[id].past) in c.lca
    ensures MergesAll(c, u, j)
  {
    assert Edge(c.prev, j, u);
    forall v | v in c.prev[j] ensures (u, v) in c.lca {
      assert v in Pasts(data);
      var id :| id in data && data[id].past == v;
      assert id in Elements(order);
    }
  }

  lemma StepSafe(c: Config, s: State, l: Label)
    requires Inverse(c.next, c.prev) && Safe(c, s) && Enabled(c, s, l)
    ensures Safe(c, Apply(c, s, l))
  {
    match l
    case Start(root) => DispatchAllSafe(c, s.(roots := s.roots + {root}), root, c.next[START]);
    case Return(id) =>
    case Fork(pid) => ForkSafe(c, s, pid);
    case Retrieve(pid, order) => RetrieveSafe(c, s, pid, order);
    case Lose(id) =>
    case Duplicate(id) =>
    case StoreFails(pid) => AdvanceSafe(c, s, pid);
    case RetrieveFails(pid) => AdvanceSafe(c, s, pid);
    case Crash(pid) =>
    case Expire(root, joint) =>
  }

  /**
   Whatever is lost, repeated or interleaved: a service entered out of a returned task has a predecessor list
   without repetition, the tasks it was entered with came from exactly the whole list, and one predecessor's
   searches for a common ancestor with all of them answer. In particular a joint whose predecessor list repeats
   a name, or where every predecessor's search fails with some other, is never entered from a return.
   */
  lemma {:induction false} JoinSafe(c: Config, ls: seq<Label>)
    requires Inverse(c.next, c.prev) && Exec(c, ls).Some?
    ensures Safe(c, Exec(c, ls).value)
  {
    if ls != [] {
      JoinSafe(c, ls[..|ls| - 1]);
      StepSafe(c, Exec(c, ls[..|ls| - 1]).value, ls[|ls| - 1]);
    }
  }
}
