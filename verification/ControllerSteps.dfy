/** What a retrieval comes down to. */
module ControllerSteps {
  import opened Protocol
  import opened JoinSafety

  /** A retrieval finds too little, drops what it took, raises, or submits one merged task. */
  lemma RetrieveOutcome(c: Config, s: State, pid: Id, order: seq<Id>) returns (m: TaskData)
    requires Enabled(c, s, Retrieve(pid, order))
    ensures var key := (s.procs[pid].task.root, s.procs[pid].todo[0]);
      var taken, after := Taken(s, key), ApplyRetrieve(c, s, pid, order);
      || after == Advance(s, pid) || after == Advance(taken, pid) || after == taken.(procs := s.procs - {pid})
      || after == Advance(Dispatch(taken, m, FromReturn(Pasts(Stored(s.store, key)))), pid)
    ensures var merged := MergeAll(c, s.procs[pid].retrieving.value,
                                   Stored(s.store, (s.procs[pid].task.root, s.procs[pid].todo[0])), order);
      m == if merged.Some? then merged.value else s.procs[pid].retrieving.value
  {
    var p := s.procs[pid];
    var merged := MergeAll(c, p.retrieving.value, Stored(s.store, (p.task.root, p.todo[0])), order);
    m := if merged.Some? then merged.value else p.retrieving.value;
  }

  /** In a safe state the merged task belongs to the joint. */
  lemma RetrieveCases(c: Config, s: State, pid: Id, order: seq<Id>) returns (m: TaskData)
    requires Safe(c, s) && Enabled(c, s, Retrieve(pid, order))
    ensures m.root == s.procs[pid].task.root && m.cur == s.procs[pid].todo[0]
    ensures var key := (s.procs[pid].task.root, s.procs[pid].todo[0]);
      var taken, after := Taken(s, key), ApplyRetrieve(c, s, pid, order);
      || after == Advance(s, pid) || after == Advance(taken, pid) || after == taken.(procs := s.procs - {pid})
      || after == Advance(Dispatch(taken, m, FromReturn(Pasts(Stored(s.store, key)))), pid)
  {
    var p := s.procs[pid];
    assert ProcSafe(c, p);
    MergeKeepsPlace(c, p.retrieving.value, Stored(s.store, (p.task.root, p.todo[0])), order);
    m := RetrieveOutcome(c, s, pid, order);
  }
}
