/** What was entered before what, under any loss, duplication, crash and interleaving. */
module EntryOrder {
  import opened Graphs
  import opened Dags
  import opened Protocol
  import opened JoinSafety
  import opened RunInvariant
  import opened ControllerSteps

  ghost predicate EnteredBefore(s: State, i: nat, r: Id, u: Name) {
    exists k :: 0 <= k < i && k < |s.entered| && IsEntry(s, k, r, u)
  }

  /** An entry out of returned tasks follows an entry of each service they came from. */
  ghost predicate EntryTraced(s: State, i: int)
    requires 0 <= i < |s.entered|
  {
    s.entered[i].origin.FromReturn? ==> forall u :: u in s.entered[i].origin.pasts ==>
      EnteredBefore(s, i, s.entered[i].root, u)
  }

  ghost predicate TaskTraced(s: State, t: TaskData) {
    Ent(s, t.root, t.cur)
  }

  /** Whatever runs, is processed, is stored or was delivered stands where its root task was entered. */
  ghost predicate InFlightTraced(s: State) {
    && (forall id :: id in s.running ==> TaskTraced(s, s.running[id]))
    && (forall pid {:trigger s.procs[pid]} :: pid in s.procs ==> TaskTraced(s, s.procs[pid].task))
    && (forall key, id {:trigger s.store[key][id]} :: key in s.store && id in s.store[key] ==>
         Ent(s, key.0, s.store[key][id].past))
    && (forall i :: 0 <= i < |s.delivered| ==> s.delivered[i].cur == END && TaskTraced(s, s.delivered[i]))
  }

  ghost predicate EntriesTraced(s: State) {
    forall i :: 0 <= i < |s.entered| ==> EntryTraced(s, i)
  }

  ghost predicate Traced(s: State) {
    InFlightTraced(s) && EntriesTraced(s)
  }

  lemma EntriesKept(s: State, s': State)
    requires s.entered <= s'.entered
    ensures forall r, u :: Ent(s, r, u) ==> Ent(s', r, u)
    ensures forall i: nat, r, u :: EnteredBefore(s, i, r, u) ==> EnteredBefore(s', i, r, u)
  {
    forall r, u | Ent(s, r, u) ensures Ent(s', r, u) {
      var i :| 0 <= i < |s.entered| && IsEntry(s, i, r, u);
      assert IsEntry(s', i, r, u);
    }
    forall i: nat, r, u | EnteredBefore(s, i, r, u) ensures EnteredBefore(s', i, r, u) {
      var k :| 0 <= k < i && k < |s.entered| && IsEntry(s, k, r, u);
      assert IsEntry(s', k, r, u);
    }
  }

  lemma DispatchTraced(s: State, t: TaskData, o: Origin)
    requires Traced(s) && (o.FromReturn? ==> forall u :: u in o.pasts ==> Ent(s, t.root, u))
    ensures Traced(Dispatch(s, t, o))
  {
    DispatchInFlight(s, t, o);
    DispatchEntries(s, t, o);
  }

  lemma DispatchInFlight(s: State, t: TaskData, o: Origin)
    requires InFlightTraced(s)
    ensures InFlightTraced(Dispatch(s, t, o))
  {
    EntriesKept(s, Dispatch(s, t, o));
    assert IsEntry(Dispatch(s, t, o), |s.entered|, t.root, t.cur);
  }

  lemma DispatchEntries(s: State, t: TaskData, o: Origin)
    requires EntriesTraced(s) && (o.FromReturn? ==> forall u :: u in o.pasts ==> Ent(s, t.root, u))
    ensures EntriesTraced(Dispatch(s, t, o))
  {
    var s' := Dispatch(s, t, o);
    EntriesKept(s, s');
    forall i | 0 <= i < |s'.entered| ensures EntryTraced(s', i) {
      if i < |s.entered| {
        assert EntryTraced(s, i);
      } else {
        NewEntryTraced(s, s', t.root, o);
      }
    }
  }

  lemma NewEntryTraced(s: State, s': State, r: Id, o: Origin)
    requires o.FromReturn? ==> forall u :: u in o.pasts ==> Ent(s, r, u)
    requires |s'.entered| == |s.entered| + 1 && s.entered <= s'.entered
    requires s'.entered[|s.entered|].root == r && s'.entered[|s.entered|].origin == o
    ensures EntryTraced(s', |s.entered|)
  {
    EntriesKept(s, s');
    if o.FromReturn? {
      forall u | u in o.pasts ensures EnteredBefore(s', |s.entered|, r, u) {
        assert Ent(s, r, u);
        assert EnteredBefore(s, |s.entered|, r, u);
      }
    }
  }

  lemma {:induction false} DispatchAllTraced(s: State, root: Id, children: seq<Name>)
    requires Traced(s)
    ensures Traced(DispatchAll(s, root, children))
    decreases |children|
  {
    if children != [] {
      DispatchAllTraced(s, root, children[..|children| - 1]);
      DispatchTraced(DispatchAll(s, root, children[..|children| - 1]),
                     TaskData(root, s.nextId, children[|children| - 1], START, {START}), FromStart);
    }
  }

  /** Changing what is in flight without entering anything. */
  lemma MovedTraced(s: State, s': State)
    requires Traced(s) && s'.entered == s.entered && s'.delivered == s.delivered
    requires forall id :: id in s'.running ==> TaskTraced(s, s'.running[id])
    requires forall pid {:trigger s'.procs[pid]} :: pid in s'.procs ==> TaskTraced(s, s'.procs[pid].task)
    requires forall key, id {:trigger s'.store[key][id]} :: key in s'.store && id in s'.store[key] ==>
      Ent(s, key.0, s'.store[key][id].past)
    ensures Traced(s')
  {
    EntriesKept(s, s');
    forall i | 0 <= i < |s'.entered| ensures EntryTraced(s', i) {
      assert EntryTraced(s, i);
    }
  }

  lemma AdvanceTraced(s: State, pid: Id)
    requires Traced(s) && pid in s.procs && s.procs[pid].todo != []
    ensures Traced(Advance(s, pid))
  {
    MovedTraced(s, Advance(s, pid));
  }

  lemma PutTraced(s: State, t: TaskData)
    requires Traced(s) && Ent(s, t.root, t.past)
    ensures Traced(Put(s, t))
  {
    var s' := Put(s, t);
    forall key, id | key in s'.store && id in s'.store[key] ensures Ent(s, key.0, s'.store[key][id].past) {
      if key in s.store && id in s.store[key] {
        assert Ent(s, key.0, s.store[key][id].past);
      }
    }
    MovedTraced(s, s');
  }

  lemma ClaimTraced(s: State, pid: Id, t: TaskData)
    requires Traced(s) && pid in s.procs
    ensures Traced(Claim(s, pid, t))
  {
    assert TaskTraced(s, s.procs[pid].task);
    MovedTraced(s, Claim(s, pid, t));
  }

  lemma ForkTraced(c: Config, s: State, pid: Id)
    requires Traced(s) && Enabled(c, s, Fork(pid))
    ensures Traced(ApplyFork(c, s, pid))
  {
    TaskOfProc(s, pid);
    if |c.prev[s.procs[pid].todo[0]]| <= 1 {
      DirectTraced(s, Forked(s, s.procs[pid]), pid);
    } else {
      StoredTraced(s, Forked(s, s.procs[pid]), pid);
    }
  }

  lemma TaskOfProc(s: State, pid: Id)
    requires InFlightTraced(s) && pid in s.procs
    ensures Ent(s, s.procs[pid].task.root, s.procs[pid].task.cur)
  {
    assert TaskTraced(s, s.procs[pid].task);
  }

  lemma DirectTraced(s: State, t: TaskData, pid: Id)
    requires Traced(s) && Ent(s, t.root, t.past) && pid in s.procs && s.procs[pid].todo != []
    ensures Traced(Advance(Dispatch(s.(nextId := s.nextId + 1), t, FromReturn({t.past})), pid))
  {
    var s1 := s.(nextId := s.nextId + 1);
    MovedTraced(s, s1);
    EntriesKept(s, s1);
    SentTraced(s1, t, FromReturn({t.past}), pid);
  }

  lemma StoredTraced(s: State, t: TaskData, pid: Id)
    requires Traced(s) && Ent(s, t.root, t.past) && pid in s.procs && s.procs[pid].todo != []
    ensures Traced(Advance(Put(s, t), pid)) && Traced(Claim(Put(s, t), pid, t))
  {
    PutTraced(s, t);
    AdvanceTraced(Put(s, t), pid);
    ClaimTraced(Put(s, t), pid, t);
  }

  /** Submitting a task whose origins were entered, and moving on. */
  lemma SentTraced(s: State, t: TaskData, o: Origin, pid: Id)
    requires Traced(s) && pid in s.procs && s.procs[pid].todo != []
    requires o.FromReturn? && forall u :: u in o.pasts ==> Ent(s, t.root, u)
    ensures Traced(Advance(Dispatch(s, t, o), pid))
  {
    DispatchTraced(s, t, o);
    AdvanceTraced(Dispatch(s, t, o), pid);
  }

  lemma RetrieveTraced(c: Config, s: State, pid: Id, order: seq<Id>)
    requires Safe(c, s) && Traced(s) && Enabled(c, s, Retrieve(pid, order))
    ensures Traced(ApplyRetrieve(c, s, pid, order))
  {
    var key := (s.procs[pid].task.root, s.procs[pid].todo[0]);
    var pasts, after := Pasts(Stored(s.store, key)), ApplyRetrieve(c, s, pid, order);
    TakeTraced(s, key);
    var m := RetrieveCases(c, s, pid, order);
    if after == Advance(s, pid) {
      AdvanceTraced(s, pid);
    } else if after == Advance(Taken(s, key), pid) {
      AdvanceTraced(Taken(s, key), pid);
    } else if after == Advance(Dispatch(Taken(s, key), m, FromReturn(pasts)), pid) {
      SentTraced(Taken(s, key), m, FromReturn(pasts), pid);
    } else {
      DropTraced(Taken(s, key), pid);
    }
  }

  /** Taking a joint's tasks out of the store leaves the services they came from entered. */
  lemma TakeTraced(s: State, key: (Id, Name))
    requires Traced(s)
    ensures Traced(Taken(s, key))
    ensures forall u :: u in Pasts(Stored(s.store, key)) ==> Ent(Taken(s, key), key.0, u)
  {
    var data, taken := Stored(s.store, key), Taken(s, key);
    MovedTraced(s, taken);
    EntriesKept(s, taken);
    forall u | u in Pasts(data) ensures Ent(taken, key.0, u) {
      var id :| id in data && data[id].past == u;
      assert Ent(s, key.0, s.store[key][id].past);
    }
  }

  lemma DropTraced(s: State, pid: Id)
    requires Traced(s)
    ensures Traced(s.(procs := s.procs - {pid}))
  {
    MovedTraced(s, s.(procs := s.procs - {pid}));
  }

  lemma ReturnTraced(c: Config, s: State, id: Id)
    requires Traced(s) && Enabled(c, s, Return(id))
    ensures Traced(ApplyReturn(c, s, id))
  {
    assert TaskTraced(s, s.running[id]);
    MovedTraced(s, ApplyReturn(c, s, id));
  }

  lemma StepTraced(c: Config, s: State, l: Label)
    requires Safe(c, s) && Traced(s) && Enabled(c, s, l)
    ensures Traced(Apply(c, s, l))
  {
    match l
    case Start(root) =>
      MovedTraced(s, s.(roots := s.roots + {root}));
      DispatchAllTraced(s.(roots := s.roots + {root}), root, c.next[START]);
    case Return(id) => ReturnTraced(c, s, id);
    case Fork(pid) => ForkTraced(c, s, pid);
    case Retrieve(pid, order) => RetrieveTraced(c, s, pid, order);
    case Lose(id) => MovedTraced(s, Apply(c, s, l));
    case Duplicate(id) => MovedTraced(s, Apply(c, s, l));
    case StoreFails(pid) => AdvanceTraced(s, pid);
    case RetrieveFails(pid) => AdvanceTraced(s, pid);
    case Crash(pid) => MovedTraced(s, Apply(c, s, l));
    case Expire(root, joint) => MovedTraced(s, Apply(c, s, l));
  }

  /**
   In every run, lossy or not, a service is entered out of returned tasks only after every predecessor was
   entered.
   */
  lemma {:induction false} RunTraced(c: Config, ls: seq<Label>)
    requires Inverse(c.next, c.prev) && Exec(c, ls).Some?
    ensures Traced(Exec(c, ls).value)
  {
    if ls != [] {
      RunTraced(c, ls[..|ls| - 1]);
      JoinSafe(c, ls[..|ls| - 1]);
      StepTraced(c, Exec(c, ls[..|ls| - 1]).value, ls[|ls| - 1]);
    }
  }
}
