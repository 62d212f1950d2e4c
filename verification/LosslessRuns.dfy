/** On every acyclic graph, tidy or not, a loss-free run can be continued until nothing is left to do. */
module LosslessRuns {
  import opened Graphs
  import opened Wrappers
  import opened Dags
  import opened Protocol
  import opened JoinSafety
  import opened ControllerSteps
  import opened ExactlyOnce

  // ----- sums over maps -----

  ghost function Total(m: map<Id, int>): int
    decreases m.Keys
  {
    if m == map[] then 0 else
      var k :| k in m;
      m[k] + Total(m - {k})
  }

  lemma {:induction false} TotalTake(m: map<Id, int>, k: Id)
    requires k in m
    ensures Total(m) == m[k] + Total(m - {k})
    decreases m.Keys
  {
    var first: Id :| first in m && Total(m) == m[first] + Total(m - {first});
    if first != k {
      TotalTake(m - {first}, k);
      TotalTake(m - {k}, first);
      assert m - {first} - {k} == m - {k} - {first};
    }
  }

  lemma {:induction false} TotalNotNegative(m: map<Id, int>)
    requires forall k :: k in m ==> m[k] >= 0
    ensures Total(m) >= 0
    decreases m.Keys
  {
    if m != map[] {
      var k: Id :| k in m && Total(m) == m[k] + Total(m - {k});
      TotalNotNegative(m - {k});
    }
  }

  // ----- the work left in a state -----

  ghost predicate Known(c: Config, q: seq<Name>) {
    forall n :: n in q ==> n in c.next
  }

  ghost predicate AcyclicConfig(c: Config) {
    Closed(c.next) && Acyclic(c.next)
  }

  /** Three for every path that starts at one of the nodes. */
  ghost function PathsFrom(c: Config, q: seq<Name>): (w: int)
    requires AcyclicConfig(c)
    ensures w >= 0
  {
    if Known(c, q) then 3 * QueueWork(c.next, q) else 0
  }

  /** A running task will be returned: two less than its paths. */
  ghost function TaskWork(c: Config, t: TaskData): int
    requires AcyclicConfig(c)
  {
    PathsFrom(c, [t.cur]) - 2
  }

  /** A controller serves its joints; one that already stored its task is one ahead. */
  ghost function ProcWork(c: Config, p: Proc): int
    requires AcyclicConfig(c)
  {
    PathsFrom(c, p.todo) - (if p.retrieving.Some? then 1 else 0)
  }

  ghost function TaskWorks(c: Config, running: map<Id, TaskData>): map<Id, int>
    requires AcyclicConfig(c)
  {
    map id | id in running :: TaskWork(c, running[id])
  }

  ghost function ProcWorks(c: Config, procs: map<Id, Proc>): map<Id, int>
    requires AcyclicConfig(c)
  {
    map pid | pid in procs :: ProcWork(c, procs[pid])
  }

  ghost function RunningWork(c: Config, running: map<Id, TaskData>): int
    requires AcyclicConfig(c)
  {
    Total(TaskWorks(c, running))
  }

  ghost function ProcsWork(c: Config, procs: map<Id, Proc>): int
    requires AcyclicConfig(c)
  {
    Total(ProcWorks(c, procs))
  }

  ghost function WorkLeft(c: Config, s: State): int
    requires AcyclicConfig(c)
  {
    RunningWork(c, s.running) + ProcsWork(c, s.procs)
  }

  /** Tasks and joints stand at nodes of the graph. */
  ghost predicate InGraph(c: Config, s: State) {
    && (forall id :: id in s.running ==> s.running[id].cur in c.next)
    && (forall pid {:trigger s.procs[pid]} :: pid in s.procs ==> s.procs[pid].todo != [] && Known(c, s.procs[pid].todo))
  }

  lemma WorkOfOne(c: Config, n: Name)
    requires AcyclicConfig(c) && n in c.next
    ensures PathsFrom(c, [n]) == 3 + PathsFrom(c, c.next[n])
  {
    WorkOfNode(c.next, n);
    assert QueueWork(c.next, [n]) == Work(c.next, n);
    assert Known(c, c.next[n]);
  }

  lemma WorkOfFirst(c: Config, q: seq<Name>)
    requires AcyclicConfig(c) && q != [] && Known(c, q)
    ensures PathsFrom(c, q) == PathsFrom(c, [q[0]]) + PathsFrom(c, q[1..]) && PathsFrom(c, [q[0]]) >= 3
  {
    WorkOfOne(c, q[0]);
    assert QueueWork(c.next, [q[0]]) == Work(c.next, q[0]);
    assert Known(c, q[1..]) && Known(c, [q[0]]);
  }

  lemma WorkNotNegative(c: Config, s: State)
    requires AcyclicConfig(c) && InGraph(c, s)
    ensures WorkLeft(c, s) >= 0
  {
    forall id | id in s.running ensures TaskWork(c, s.running[id]) >= 0 {
      WorkOfOne(c, s.running[id].cur);
    }
    forall pid | pid in s.procs ensures ProcWork(c, s.procs[pid]) >= 0 {
      WorkOfFirst(c, s.procs[pid].todo);
    }
    TotalNotNegative(TaskWorks(c, s.running));
    TotalNotNegative(ProcWorks(c, s.procs));
  }

  // ----- what a step adds and takes -----

  lemma RunningTaken(c: Config, running: map<Id, TaskData>, id: Id)
    requires AcyclicConfig(c) && id in running
    ensures RunningWork(c, running - {id}) == RunningWork(c, running) - TaskWork(c, running[id])
  {
    TotalTake(TaskWorks(c, running), id);
    assert TaskWorks(c, running - {id}) == TaskWorks(c, running) - {id};
  }

  lemma RunningAdded(c: Config, running: map<Id, TaskData>, id: Id, t: TaskData)
    requires AcyclicConfig(c) && id !in running
    ensures RunningWork(c, running[id := t]) == RunningWork(c, running) + TaskWork(c, t)
  {
    RunningTaken(c, running[id := t], id);
    assert running[id := t] - {id} == running;
  }

  lemma ProcTaken(c: Config, procs: map<Id, Proc>, pid: Id)
    requires AcyclicConfig(c) && pid in procs
    ensures ProcsWork(c, procs - {pid}) == ProcsWork(c, procs) - ProcWork(c, procs[pid])
  {
    TotalTake(ProcWorks(c, procs), pid);
    assert ProcWorks(c, procs - {pid}) == ProcWorks(c, procs) - {pid};
  }

  lemma ProcAdded(c: Config, procs: map<Id, Proc>, pid: Id, p: Proc)
    requires AcyclicConfig(c) && pid !in procs
    ensures ProcsWork(c, procs[pid := p]) == ProcsWork(c, procs) + ProcWork(c, p)
  {
    ProcTaken(c, procs[pid := p], pid);
    assert procs[pid := p] - {pid} == procs;
  }

  lemma ProcChanged(c: Config, procs: map<Id, Proc>, pid: Id, p: Proc)
    requires AcyclicConfig(c) && pid in procs
    ensures ProcsWork(c, procs[pid := p]) == ProcsWork(c, procs) - ProcWork(c, procs[pid]) + ProcWork(c, p)
  {
    ProcTaken(c, procs, pid);
    ProcAdded(c, procs - {pid}, pid, p);
    assert (procs - {pid})[pid := p] == procs[pid := p];
  }

  /** Ids are handed out once, so nothing new overwrites anything. */
  ghost predicate FreshIds(s: State) {
    (forall id :: id in s.running ==> id < s.nextId) && (forall id :: id in s.procs ==> id < s.nextId)
  }

  ghost predicate Sound(c: Config, s: State) {
    Safe(c, s) && InGraph(c, s) && FreshIds(s)
  }

  lemma DispatchWork(c: Config, s: State, t: TaskData, o: Origin)
    requires AcyclicConfig(c) && InGraph(c, s) && FreshIds(s) && t.cur in c.next
    ensures InGraph(c, Dispatch(s, t, o)) && FreshIds(Dispatch(s, t, o))
    ensures WorkLeft(c, Dispatch(s, t, o)) <= WorkLeft(c, s) + TaskWork(c, t)
  {
    WorkOfOne(c, t.cur);
    if t.cur != END {
      RunningAdded(c, s.running, s.nextId, t);
    }
  }

  /** Finishing a joint takes that joint's paths, and one less if the controller was retrieving. */
  lemma AdvanceWork(c: Config, s: State, pid: Id)
    requires AcyclicConfig(c) && InGraph(c, s) && FreshIds(s) && pid in s.procs
    ensures InGraph(c, Advance(s, pid)) && FreshIds(Advance(s, pid))
    ensures var p := s.procs[pid];
      WorkLeft(c, Advance(s, pid)) == WorkLeft(c, s) - PathsFrom(c, [p.todo[0]]) + (if p.retrieving.Some? then 1 else 0)
    ensures PathsFrom(c, [s.procs[pid].todo[0]]) >= 3
  {
    var p := s.procs[pid];
    WorkOfFirst(c, p.todo);
    if |p.todo| == 1 {
      ProcTaken(c, s.procs, pid);
      assert p.todo == [p.todo[0]];
    } else {
      ProcChanged(c, s.procs, pid, Proc(p.task, p.todo[1..], None));
    }
  }

  lemma ReturnWork(c: Config, s: State, id: Id)
    requires AcyclicConfig(c) && InGraph(c, s) && FreshIds(s) && Enabled(c, s, Return(id))
    ensures InGraph(c, ApplyReturn(c, s, id)) && FreshIds(ApplyReturn(c, s, id))
    ensures WorkLeft(c, ApplyReturn(c, s, id)) < WorkLeft(c, s)
  {
    var t := s.running[id];
    WorkOfOne(c, t.cur);
    RunningTaken(c, s.running, id);
    if c.next[t.cur] != [] {
      TakenUpWork(c, s.(running := s.running - {id}), Proc(t.(held := t.held + {t.cur}), c.next[t.cur], None));
    }
  }

  lemma TakenUpWork(c: Config, s: State, p: Proc)
    requires AcyclicConfig(c) && InGraph(c, s) && FreshIds(s) && p.todo != [] && Known(c, p.todo)
    ensures var s' := s.(procs := s.procs[s.nextId := p], nextId := s.nextId + 1);
      InGraph(c, s') && FreshIds(s') && WorkLeft(c, s') == WorkLeft(c, s) + ProcWork(c, p)
  {
    assert s.nextId !in s.procs;
    ProcAdded(c, s.procs, s.nextId, p);
  }

  lemma SameWork(c: Config, s: State, s': State)
    requires AcyclicConfig(c) && InGraph(c, s) && FreshIds(s)
    requires s'.running == s.running && s'.procs == s.procs && s'.nextId >= s.nextId
    ensures InGraph(c, s') && FreshIds(s') && WorkLeft(c, s') == WorkLeft(c, s)
  {
  }

  /** A controller that stays to retrieve is one ahead. */
  lemma ClaimWork(c: Config, s: State, pid: Id, t: TaskData)
    requires AcyclicConfig(c) && InGraph(c, s) && FreshIds(s) && Working(s, pid)
    ensures InGraph(c, Claim(s, pid, t)) && FreshIds(Claim(s, pid, t)) && WorkLeft(c, Claim(s, pid, t)) < WorkLeft(c, s)
  {
    ProcChanged(c, s.procs, pid, s.procs[pid].(retrieving := Some(t)));
  }

  lemma ForkWork(c: Config, s: State, pid: Id)
    requires AcyclicConfig(c) && InGraph(c, s) && FreshIds(s) && Enabled(c, s, Fork(pid))
    ensures InGraph(c, ApplyFork(c, s, pid)) && FreshIds(ApplyFork(c, s, pid))
    ensures WorkLeft(c, ApplyFork(c, s, pid)) < WorkLeft(c, s)
  {
    var t := Forked(s, s.procs[pid]);
    if |c.prev[t.cur]| > 1 {
      SameWork(c, s, Put(s, t));
      if ApplyFork(c, s, pid) == Advance(Put(s, t), pid) {
        AdvanceWork(c, Put(s, t), pid);
      } else {
        ClaimWork(c, Put(s, t), pid, t);
      }
    } else {
      var s1 := s.(nextId := s.nextId + 1);
      assert ApplyFork(c, s, pid) == Advance(Dispatch(s1, t, FromReturn({t.past})), pid);
      SameWork(c, s, s1);
      JoinWork(c, s1, pid, t, FromReturn({t.past}));
    }
  }

  lemma RetrieveWork(c: Config, s: State, pid: Id, order: seq<Id>)
    requires AcyclicConfig(c) && Sound(c, s) && Enabled(c, s, Retrieve(pid, order))
    ensures InGraph(c, ApplyRetrieve(c, s, pid, order)) && FreshIds(ApplyRetrieve(c, s, pid, order))
    ensures WorkLeft(c, ApplyRetrieve(c, s, pid, order)) < WorkLeft(c, s)
  {
    var key := (s.procs[pid].task.root, s.procs[pid].todo[0]);
    var pasts, after := Pasts(Stored(s.store, key)), ApplyRetrieve(c, s, pid, order);
    var m := RetrieveCases(c, s, pid, order);
    if after == Advance(s, pid) {
      AdvanceWork(c, s, pid);
    } else if after == Advance(Taken(s, key), pid) {
      AdvanceWork(c, Taken(s, key), pid);
    } else if after == Advance(Dispatch(Taken(s, key), m, FromReturn(pasts)), pid) {
      JoinWork(c, Taken(s, key), pid, m, FromReturn(pasts));
    } else {
      DropWork(c, Taken(s, key), pid);
    }
  }

  /** A merge that raises ends the controller's processing. */
  lemma DropWork(c: Config, s: State, pid: Id)
    requires AcyclicConfig(c) && InGraph(c, s) && FreshIds(s) && pid in s.procs
    ensures var s' := s.(procs := s.procs - {pid}); InGraph(c, s') && FreshIds(s') && WorkLeft(c, s') < WorkLeft(c, s)
  {
    WorkOfFirst(c, s.procs[pid].todo);
    ProcTaken(c, s.procs, pid);
  }

  /** Submitting at a joint trades its paths for a running task's. */
  lemma JoinWork(c: Config, s: State, pid: Id, m: TaskData, o: Origin)
    requires AcyclicConfig(c) && InGraph(c, s) && FreshIds(s) && pid in s.procs && m.cur == s.procs[pid].todo[0]
    ensures var s' := Advance(Dispatch(s, m, o), pid);
      InGraph(c, s') && FreshIds(s') && WorkLeft(c, s') < WorkLeft(c, s)
  {
    DispatchWork(c, s, m, o);
    AdvanceWork(c, Dispatch(s, m, o), pid);
  }

  lemma {:induction false} DispatchAllInGraph(c: Config, s: State, root: Id, children: seq<Name>)
    requires InGraph(c, s) && FreshIds(s) && Known(c, children)
    ensures InGraph(c, DispatchAll(s, root, children)) && FreshIds(DispatchAll(s, root, children))
    decreases |children|
  {
    if children != [] {
      DispatchAllInGraph(c, s, root, children[..|children| - 1]);
    }
  }

  /** Every loss-free step but a submission leaves less work. */
  lemma StepWork(c: Config, s: State, l: Label)
    requires Inverse(c.next, c.prev) && AcyclicConfig(c)
    requires Sound(c, s) && Enabled(c, s, l) && Lossless(l)
    ensures Sound(c, Apply(c, s, l))
    ensures !l.Start? ==> WorkLeft(c, Apply(c, s, l)) < WorkLeft(c, s)
  {
    StepSafe(c, s, l);
    match l
    case Start(root) =>
      DispatchAllInGraph(c, s.(roots := s.roots + {root}), root, c.next[START]);
    case Return(id) => ReturnWork(c, s, id);
    case Fork(pid) => ForkWork(c, s, pid);
    case Retrieve(pid, order) => RetrieveWork(c, s, pid, order);
  }

  lemma {:induction false} RunSound(c: Config, ls: seq<Label>)
    requires Inverse(c.next, c.prev) && AcyclicConfig(c) && AllLossless(ls) && Exec(c, ls).Some?
    ensures Sound(c, Exec(c, ls).value)
  {
    if ls != [] {
      RunSound(c, ls[..|ls| - 1]);
      StepWork(c, Exec(c, ls[..|ls| - 1]).value, ls[|ls| - 1]);
    }
  }

  /** Every loss-free run goes on to one in which nothing is left to do, without submitting anything more. */
  lemma {:induction false} RunsOut(c: Config, ls: seq<Label>) returns (all: seq<Label>)
    requires Inverse(c.next, c.prev) && AcyclicConfig(c) && AllLossless(ls) && Exec(c, ls).Some?
    ensures ls <= all && AllLossless(all) && Exec(c, all).Some? && Quiet(c, Exec(c, all).value)
    ensures Exec(c, all).value.roots == Exec(c, ls).value.roots
    decreases WorkLeft(c, Exec(c, ls).value)
  {
    var s := Exec(c, ls).value;
    RunSound(c, ls);
    WorkNotNegative(c, s);
    if Quiet(c, s) {
      all := ls;
    } else {
      var l :| Enabled(c, s, l) && Lossless(l) && !l.Start?;
      var longer := ls + [l];
      ExecNext(c, ls, l);
      StepWork(c, s, l);
      StepRoots(c, s, l);
      all := RunsOut(c, longer);
    }
  }
}
