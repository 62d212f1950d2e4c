/** The controller and its task coordinator as the code runs them, each refined by steps of the protocol. */
module Controllers {
  import opened Graphs
  import opened Wrappers
  import opened Dags
  import opened IntermediateNodes
  import opened Protocol
  import opened JoinSafety

  /** The state a run of labels leads to from `s`, if every step is enabled. */
  ghost function ExecFrom(c: Config, s: State, ls: seq<Label>): Option<State> {
    if ls == [] then Some(s) else
      match ExecFrom(c, s, ls[..|ls| - 1])
      case None => None
      case Some(m) => if Enabled(c, m, ls[|ls| - 1]) then Some(Apply(c, m, ls[|ls| - 1])) else None
  }

  lemma ExecSnoc(c: Config, s: State, ls: seq<Label>, l: Label)
    requires ExecFrom(c, s, ls).Some? && Enabled(c, ExecFrom(c, s, ls).value, l)
    ensures ExecFrom(c, s, ls + [l]) == Some(Apply(c, ExecFrom(c, s, ls).value, l))
  {
    assert (ls + [l])[..|ls|] == ls;
  }

  /** Continuing a run of the whole system is again a run. */
  lemma {:induction false} ExecContinues(c: Config, before: seq<Label>, ls: seq<Label>)
    requires Exec(c, before).Some? && ExecFrom(c, Exec(c, before).value, ls).Some?
    ensures Exec(c, before + ls) == ExecFrom(c, Exec(c, before).value, ls)
    decreases |ls|
  {
    if ls == [] {
      assert before + ls == before;
    } else {
      ExecContinues(c, before, ls[..|ls| - 1]);
      assert (before + ls)[..|before + ls| - 1] == before + ls[..|ls| - 1];
    }
  }

  /** The shared hash of each joint. */
  class TaskCoordinator {
    var store: Store

    constructor ()
      ensures store == map[]
    {
      store := map[];
    }

    /** Writes the task under its uuid and counts what the joint now holds. */
    method StoreTaskData(task: TaskData, joint: Name) returns (count: nat)
      modifies this
      ensures store == old(store)[(task.root, joint) := Stored(old(store), (task.root, joint))[task.uuid := task]]
      ensures count == |store[(task.root, joint)]|
    {
      var data := Stored(store, (task.root, joint))[task.uuid := task];
      store := store[(task.root, joint) := data];
      count := |data|;
    }

    /** Takes everything out of a joint that holds enough, then checks that it is one task per branch. */
    method RetrieveTaskData(root: Id, joint: Name, required: nat)
      returns (tasks: Option<map<Id, TaskData>>, order: seq<Id>)
      modifies this
      ensures var key := (root, joint);
        var data := Stored(old(store), key);
        if |data| < required || data == map[] then
          tasks == None && store == old(store)
        else
          && store == old(store) - {key}
          && tasks == if |Pasts(data)| == required && |Curs(data)| == 1 then Some(data) else None
      ensures Distinct(order) && Elements(order) == Stored(old(store), (root, joint)).Keys
    {
      var key := (root, joint);
      var data := Stored(store, key);
      order := ListKeys(data.Keys);
      if |data| < required || data == map[] {
        return None, order;
      }
      store := store - {key};
      var pasts, curs: set<Name> := {}, {};
      for i := 0 to |order|
        invariant forall j :: 0 <= j < |order| ==> order[j] in data
        invariant pasts == set j | 0 <= j < i :: data[order[j]].past
        invariant curs == set j | 0 <= j < i :: data[order[j]].cur
      {
        assert order[i] in Elements(order);
        pasts := pasts + {data[order[i]].past};
        curs := curs + {data[order[i]].cur};
      }
      OrderCovers(data, order);
      if |pasts| != required || |curs| != 1 {
        return None, order;
      }
      return Some(data), order;
    }
  }

  /** The keys of a hash, in some order. */
  method ListKeys(keys: set<Id>) returns (order: seq<Id>)
    ensures Distinct(order) && Elements(order) == keys
  {
    order := [];
    var rest := keys;
    while rest != {}
      invariant rest <= keys && Distinct(order) && Elements(order) == keys - rest
      decreases rest
    {
      var k :| k in rest;
      assert k !in Elements(order);
      assert Elements(order + [k]) == Elements(order) + {k};
      order := order + [k];
      rest := rest - {k};
    }
  }

  lemma OrderCovers(data: map<Id, TaskData>, order: seq<Id>)
    requires Elements(order) == data.Keys && forall j :: 0 <= j < |order| ==> order[j] in data
    ensures Pasts(data) == set j | 0 <= j < |order| :: data[order[j]].past
    ensures Curs(data) == set j | 0 <= j < |order| :: data[order[j]].cur
  {
    forall id | id in data ensures exists j :: 0 <= j < |order| && order[j] == id {
      assert id in Elements(order);
    }
  }

  class Controller {
    const config: Config
    const coordinator: TaskCoordinator
    var roots: set<Id>
    var running: map<Id, TaskData>
    var procs: map<Id, Proc>
    var delivered: seq<TaskData>
    var entered: seq<Entry>
    var nextId: Id

    /** The whole system as the protocol sees it. */
    ghost function View(): State
      reads this, coordinator
    {
      State(roots, running, procs, coordinator.store, delivered, entered, nextId)
    }

    constructor (config: Config)
      ensures this.config == config && View() == INIT && fresh(coordinator)
    {
      this.config := config;
      this.coordinator := new TaskCoordinator();
      roots, running, procs, delivered, entered, nextId := {}, map[], map[], [], [], 0;
    }

    /** Past the start: the end goes to the distributor, anything else to its service. */
    method SubmitTask(task: TaskData, origin: Origin)
      modifies this
      ensures View() == Dispatch(old(View()), task, origin)
    {
      entered := entered + [Entry(task.root, task.cur, origin)];
      if task.cur == END {
        delivered := delivered + [task];
      } else {
        running := running[nextId := task];
      }
      nextId := nextId + 1;
    }

    /** At the start: every child gets its own fork. */
    method SubmitRoot(root: Id) returns (ok: bool)
      modifies this
      ensures ok <==> Enabled(config, old(View()), Start(root))
      ensures ok ==> View() == Apply(config, old(View()), Start(root))
      ensures !ok ==> View() == old(View())
    {
      if root in roots || START !in config.next {
        return false;
      }
      roots := roots + {root};
      ghost var base := View();
      var uuid := nextId;
      var children := config.next[START];
      for i := 0 to |children|
        invariant View() == DispatchAll(base, root, children[..i])
      {
        assert children[..i + 1][..i] == children[..i];
        SubmitTask(TaskData(root, uuid, children[i], START, {START}), FromStart);
      }
      assert children[..|children|] == children;
      return true;
    }

    /** Folds the retrieved tasks into the forked one; a missing common ancestor raises. */
    method MergeTasks(task: TaskData, data: map<Id, TaskData>, order: seq<Id>) returns (merged: Option<TaskData>)
      requires Inverse(config.next, config.prev) && forall id :: id in order ==> id in data
      requires forall u, v :: (u, v) in config.lca ==> config.lca[(u, v)] in config.next && v in config.next
      ensures merged == MergeAll(config, task, data, order)
    {
      var t := task;
      for i := 0 to |order|
        invariant MergeAll(config, task, data, order[..i]) == Some(t)
        invariant t.past == task.past
      {
        assert order[..i + 1][..i] == order[..i];
        var other := data[order[i]];
        if (task.past, other.past) !in config.lca {
          MergeStops(config, task, data, order, i + 1);
          return None;
        }
        var between := GetIntermediateNodes(config.next, config.prev, config.lca[(task.past, other.past)], other.past);
        var copied := between.value + {other.past};
        t := t.(held := (t.held - copied) + (other.held * copied));
      }
      assert order[..|order|] == order;
      return Some(t);
    }

    /** What every step of a returned task's processing needs of the configuration. */
    ghost predicate Configured()
    {
      && Inverse(config.next, config.prev)
      && forall u, v :: (u, v) in config.lca ==> config.lca[(u, v)] in config.next && v in config.next
    }

    /** The last task of a joint has been stored: take them all, merge, submit. */
    method RetrieveJoint(pid: Id) returns (raised: bool, wait: bool, ghost l: Label)
      requires Configured() && Retrieving(View(), pid) && procs[pid].todo[0] in config.prev
      modifies this, coordinator
      ensures l.Retrieve? && l.pid == pid && Enabled(config, old(View()), l) && View() == Apply(config, old(View()), l)
      ensures raised <==> MergeRaises(config, old(View()), l)
      ensures NextInTurn(old(procs[pid]), View(), pid, raised)
      ensures Enters(old(entered), entered, old(procs[pid].retrieving.value.root),
                     if raised || wait then [] else [old(procs[pid].retrieving.value.cur)])
    {
      var p := procs[pid];
      var joint := p.todo[0];
      var required := |config.prev[joint]|;
      var tasks, order := coordinator.RetrieveTaskData(p.task.root, joint, required);
      l := Retrieve(pid, order);
      if tasks == None {
        NextJoint(pid);
        return false, true, l;
      }
      assert forall id :: id in order ==> id in Elements(order);
      raised := MergeAndSubmit(pid, tasks.value, order);
      wait := false;
    }

    /** What was taken is merged and submitted; if a merge raises, the processing ends. */
    method MergeAndSubmit(pid: Id, tasks: map<Id, TaskData>, order: seq<Id>) returns (raised: bool)
      requires Configured() && Retrieving(View(), pid) && forall id :: id in order ==> id in tasks
      modifies this
      ensures var s, merged := old(View()), MergeAll(config, old(procs[pid].retrieving.value), tasks, order);
        View() == if merged == None then s.(procs := s.procs - {pid})
                  else Advance(Dispatch(s, merged.value, FromReturn(Pasts(tasks))), pid)
      ensures raised <==> MergeAll(config, old(procs[pid].retrieving.value), tasks, order) == None
      ensures NextInTurn(old(procs[pid]), View(), pid, raised)
      ensures Enters(old(entered), entered, old(procs[pid].retrieving.value.root),
                     if raised then [] else [old(procs[pid].retrieving.value.cur)])
    {
      var merged := MergeTasks(procs[pid].retrieving.value, tasks, order);
      if merged == None {
        procs := procs - {pid};
        return true;
      }
      MergeKeepsPlace(config, procs[pid].retrieving.value, tasks, order);
      SubmitTask(merged.value, FromReturn(Pasts(tasks)));
      NextJoint(pid);
      return false;
    }

    /** Forks one joint and submits it at once, or stores it and tells whether the joint is now complete. */
    method ForkJoint(pid: Id) returns (complete: bool, wait: bool)
      requires Configured() && Working(View(), pid) && procs[pid].todo[0] in config.prev
      modifies this, coordinator
      ensures View() == ApplyFork(config, old(View()), pid)
      ensures complete ==>
        && Retrieving(View(), pid) && procs[pid] == old(procs[pid]).(retrieving := procs[pid].retrieving)
        && procs[pid].retrieving.value.root == procs[pid].task.root
        && procs[pid].retrieving.value.cur == procs[pid].todo[0]
      ensures !complete ==> NextInTurn(old(procs[pid]), View(), pid, false)
      ensures if complete || wait then entered == old(entered)
              else Enters(old(entered), entered, old(procs[pid].task.root), [old(procs[pid].todo[0])])
    {
      var p := procs[pid];
      var joint := p.todo[0];
      var required := |config.prev[joint]|;
      var task := TaskData(p.task.root, nextId, joint, p.task.cur, p.task.held);
      nextId := nextId + 1;
      if required <= 1 {
        EntersIs(entered, [Entry(task.root, joint, FromReturn({task.past}))], task.root, [joint]);
        SubmitTask(task, FromReturn({task.past}));
        NextJoint(pid);
        return false, false;
      }
      var count := coordinator.StoreTaskData(task, joint);
      if count != required {
        NextJoint(pid);
        return false, true;
      }
      procs := procs[pid := p.(retrieving := Some(task))];
      return true, true;
    }

    /** Serves one joint of a returned task: fork, store and count, retrieve, merge, submit. */
    method ServeJoint(pid: Id) returns (raised: bool, wait: bool, ghost ls: seq<Label>)
      requires Configured() && Working(View(), pid) && procs[pid].todo[0] in config.prev
      modifies this, coordinator
      ensures ExecFrom(config, old(View()), ls) == Some(View()) && OwnLabels(ls, pid)
      ensures raised <==> EndsRaising(config, old(View()), ls)
      ensures NextInTurn(old(procs[pid]), View(), pid, raised)
      ensures Enters(old(entered), entered, old(procs[pid].task.root),
                     if raised || wait then [] else [old(procs[pid].todo[0])])
    {
      ghost var s0 := View();
      var complete;
      complete, wait := ForkJoint(pid);
      raised := false;
      ls := [Fork(pid)];
      FirstStep(config, s0, Fork(pid));
      if complete {
        ghost var s1, l := View(), Fork(pid);
        raised, wait, l := RetrieveJoint(pid);
        ForkThenRetrieve(config, s0, s1, pid, l);
        ls := ls + [l];
      }
    }

    method NextJoint(pid: Id)
      requires pid in procs && procs[pid].todo != []
      modifies this`procs
      ensures View() == Advance(old(View()), pid)
    {
      var p := procs[pid];
      if |p.todo| == 1 {
        procs := procs - {pid};
      } else {
        procs := procs[pid := Proc(p.task, p.todo[1..], None)];
      }
    }

    /**
     Serves all joints of a returned task in turn, one action each: waiting, or submitted. A merge that raises
     ends it without an action for its joint.
     */
    method ServeJoints(pid: Id) returns (raised: bool, waits: seq<bool>, ghost ls: seq<Label>)
      requires Configured() && Working(View(), pid) && forall j :: j in procs[pid].todo ==> j in config.prev
      modifies this, coordinator
      ensures ExecFrom(config, old(View()), ls) == Some(View()) && OwnLabels(ls, pid)
      ensures raised <==> EndsRaising(config, old(View()), ls)
      ensures pid !in procs
      ensures if raised then |waits| < |old(procs[pid]).todo| else |waits| == |old(procs[pid]).todo|
      ensures Enters(old(entered), entered, old(procs[pid].task.root), Submitted(old(procs[pid].todo), waits))
    {
      ghost var s0, task, joints := View(), procs[pid].task, procs[pid].todo;
      raised, waits, ls := false, [], [];
      while pid in procs
        invariant Stepped(config, s0, View(), pid, raised, ls)
        invariant Served(s0, View(), pid, task, joints, raised, waits)
        decreases |joints| - |waits|, if raised then 0 else 1
      {
        ghost var s1 := View();
        AtJointWorks(s1, pid, task, joints, |waits|);
        var wait;
        ghost var steps;
        raised, wait, steps := ServeJoint(pid);
        StepsMore(config, s0, s1, View(), pid, ls, raised, steps);
        ServedMore(s0, s1, View(), pid, task, joints, waits, raised, wait);
        ls := ls + steps;
        if !raised {
          waits := waits + [wait];
        }
      }
    }

    /** A service hands back a task: its result is recorded, and the controller takes up the joints it leads to. */
    method TakeUp(id: Id) returns (pid: Id, joints: seq<Name>)
      requires Configured() && id in running && running[id].cur in config.next && nextId !in procs
      modifies this
      ensures Enabled(config, old(View()), Return(id)) && View() == Apply(config, old(View()), Return(id))
      ensures pid == old(nextId) && joints == config.next[old(running[id]).cur]
      ensures if joints == [] then pid !in procs
              else Working(View(), pid) && procs[pid].todo == joints && forall j :: j in joints ==> j in config.prev
    {
      var task := running[id];
      pid, joints := nextId, config.next[task.cur];
      running := running - {id};
      if joints == [] {
        return;
      }
      InverseClosed(config.next, config.prev);
      forall j | j in joints ensures j in config.prev {
        assert Edge(config.next, task.cur, j);
      }
      procs := procs[pid := Proc(task.(held := task.held + {task.cur}), joints, None)];
      nextId := nextId + 1;
    }

    /**
     A returned task is processed: every joint it leads to is served in turn. Uninterrupted, the call is a
     run of the protocol that ends with the controller free again, and its actions tell which of the joints
     were entered.
     */
    method ProcessReturn(id: Id) returns (raised: bool, waits: seq<bool>, ghost ls: seq<Label>)
      requires Configured() && id in running && running[id].cur in config.next && nextId !in procs
      modifies this, coordinator
      ensures ExecFrom(config, old(View()), [Return(id)] + ls) == Some(View()) && OwnLabels(ls, old(nextId))
      ensures raised <==> EndsRaising(config, Apply(config, old(View()), Return(id)), ls)
      ensures old(nextId) !in procs
      ensures var joints := config.next[old(running[id]).cur];
        && (if raised then |waits| < |joints| else |waits| == |joints|)
        && Enters(old(entered), entered, old(running[id]).root, Submitted(joints, waits))
    {
      ghost var s0 := View();
      var pid, joints := TakeUp(id);
      FirstStep(config, s0, Return(id));
      raised, waits, ls := false, [], [];
      if joints == [] {
        assert [Return(id)] + ls == [Return(id)];
        return;
      }
      raised, waits, ls := ServeJoints(pid);
      ExecAppend(config, s0, [Return(id)], ls);
    }
  }

  lemma FirstStep(c: Config, s: State, l: Label)
    requires Enabled(c, s, l)
    ensures ExecFrom(c, s, [l]) == Some(Apply(c, s, l))
  {
    assert ExecFrom(c, s, []) == Some(s);
    ExecSnoc(c, s, [], l);
    assert [] + [l] == [l];
  }

  /** The controller is at joint number `k` of the task, or through with them. */
  ghost predicate AtJoint(s: State, pid: Id, task: TaskData, joints: seq<Name>, k: nat) {
    k <= |joints| &&
    if k == |joints| then pid !in s.procs else pid in s.procs && s.procs[pid] == Proc(task, joints[k..], None)
  }

  lemma AtJointWorks(s: State, pid: Id, task: TaskData, joints: seq<Name>, k: nat)
    requires AtJoint(s, pid, task, joints, k) && pid in s.procs
    ensures k < |joints| && Working(s, pid) && s.procs[pid].task == task
    ensures s.procs[pid].todo[0] == joints[k] && joints[k] in joints
  {
  }

  lemma NextAt(before: State, after: State, pid: Id, task: TaskData, joints: seq<Name>, k: nat, raised: bool)
    requires AtJoint(before, pid, task, joints, k) && pid in before.procs
    requires NextInTurn(before.procs[pid], after, pid, raised)
    ensures if raised then pid !in after.procs else AtJoint(after, pid, task, joints, k + 1)
  {
    assert joints[k..][1..] == joints[k + 1..];
  }

  /** The steps `ls` of one controller lead from `s0` to `s`. */
  ghost predicate Stepped(c: Config, s0: State, s: State, pid: Id, raised: bool, ls: seq<Label>) {
    ExecFrom(c, s0, ls) == Some(s) && OwnLabels(ls, pid) && (raised <==> EndsRaising(c, s0, ls))
  }

  /** From `s0` to `s` one joint per action has been served, and the one that raised. */
  ghost predicate Served(s0: State, s: State, pid: Id, task: TaskData, joints: seq<Name>, raised: bool,
                         waits: seq<bool>) {
    && (if raised then pid !in s.procs && |waits| < |joints| else AtJoint(s, pid, task, joints, |waits|))
    && Enters(s0.entered, s.entered, task.root, Submitted(joints, waits))
  }

  lemma StepsMore(c: Config, s0: State, s1: State, s: State, pid: Id, ls: seq<Label>, raised: bool, steps: seq<Label>)
    requires Stepped(c, s0, s1, pid, false, ls) && Stepped(c, s1, s, pid, raised, steps) && steps != []
    ensures Stepped(c, s0, s, pid, raised, ls + steps)
  {
    ExecAppend(c, s0, ls, steps);
    RaisingAppend(c, s0, s1, ls, steps);
  }

  lemma ServedMore(s0: State, s1: State, s: State, pid: Id, task: TaskData, joints: seq<Name>, waits: seq<bool>,
                   raised: bool, wait: bool)
    requires Served(s0, s1, pid, task, joints, false, waits) && |waits| < |joints|
    requires NextInTurn(s1.procs[pid], s, pid, raised)
    requires Enters(s1.entered, s.entered, task.root, if raised || wait then [] else [joints[|waits|]])
    ensures Served(s0, s, pid, task, joints, raised, if raised then waits else waits + [wait])
  {
    NextAt(s1, s, pid, task, joints, |waits|, raised);
    EntersMore(s0.entered, s1.entered, s.entered, task.root, Submitted(joints, waits),
               if raised || wait then [] else [joints[|waits|]]);
    SubmittedMore(joints, waits, wait);
  }

  /** The controller goes on with the next joint of the same task, or is free: after the last one, or a raise. */
  ghost predicate NextInTurn(before: Proc, s: State, pid: Id, raised: bool) {
    if raised || |before.todo| <= 1 then pid !in s.procs
    else pid in s.procs && s.procs[pid] == Proc(before.task, before.todo[1..], None)
  }

  /** The entries are those of returned tasks of the root at these services. */
  ghost predicate Logged(es: seq<Entry>, root: Id, services: seq<Name>) {
    |es| == |services| && forall i :: 0 <= i < |es| ==>
      es[i].root == root && es[i].service == services[i] && es[i].origin.FromReturn?
  }

  /** Exactly these services, in this order, are entered by returned tasks of the root. */
  ghost predicate Enters(before: seq<Entry>, after: seq<Entry>, root: Id, services: seq<Name>) {
    |before| <= |after| && after == before + after[|before|..] && Logged(after[|before|..], root, services)
  }

  lemma EntersIs(before: seq<Entry>, es: seq<Entry>, root: Id, services: seq<Name>)
    requires Logged(es, root, services)
    ensures Enters(before, before + es, root, services)
  {
    assert (before + es)[|before|..] == es;
  }

  /** The joints whose action is not to wait, in order. */
  ghost function Submitted(joints: seq<Name>, waits: seq<bool>): seq<Name>
    requires |waits| <= |joints|
  {
    if waits == [] then [] else
      var k := |waits| - 1;
      Submitted(joints, waits[..k]) + if waits[k] then [] else [joints[k]]
  }

  lemma SubmittedMore(joints: seq<Name>, waits: seq<bool>, wait: bool)
    requires |waits| < |joints|
    ensures Submitted(joints, waits + [wait])
         == Submitted(joints, waits) + if wait then [] else [joints[|waits|]]
  {
    assert (waits + [wait])[..|waits|] == waits;
  }

  lemma EntersMore(a: seq<Entry>, b: seq<Entry>, c: seq<Entry>, root: Id, first: seq<Name>, more: seq<Name>)
    requires Enters(a, b, root, first) && Enters(b, c, root, more)
    ensures Enters(a, c, root, first + more)
  {
    assert c == a + (b[|a|..] + c[|b|..]);
    EntersIs(a, b[|a|..] + c[|b|..], root, first + more);
  }

  /** The step takes out one task per branch, and a merge among them finds no common ancestor. */
  ghost predicate MergeRaises(c: Config, s: State, l: Label) {
    l.Retrieve? && Enabled(c, s, l) &&
    var joint := s.procs[l.pid].todo[0];
    var data := Stored(s.store, (s.procs[l.pid].task.root, joint));
    && data != map[] && |data| >= |c.prev[joint]| == |Pasts(data)| && |Curs(data)| == 1
    && (forall id :: id in l.order ==> id in data)
    && MergeAll(c, s.procs[l.pid].retrieving.value, data, l.order) == None
  }

  /** The last of the steps raises. */
  ghost predicate EndsRaising(c: Config, s: State, ls: seq<Label>) {
    ls != [] && ExecFrom(c, s, ls[..|ls| - 1]).Some?
    && MergeRaises(c, ExecFrom(c, s, ls[..|ls| - 1]).value, ls[|ls| - 1])
  }

  lemma ForkThenRetrieve(c: Config, s: State, m: State, pid: Id, l: Label)
    requires ExecFrom(c, s, [Fork(pid)]) == Some(m) && Enabled(c, m, l) && l.Retrieve? && l.pid == pid
    ensures ExecFrom(c, s, [Fork(pid)] + [l]) == Some(Apply(c, m, l)) && OwnLabels([Fork(pid)] + [l], pid)
    ensures EndsRaising(c, s, [Fork(pid)] + [l]) <==> MergeRaises(c, m, l)
  {
    ExecSnoc(c, s, [Fork(pid)], l);
    assert ([Fork(pid)] + [l])[..1] == [Fork(pid)];
  }

  lemma RaisingAppend(c: Config, s: State, m: State, a: seq<Label>, b: seq<Label>)
    requires ExecFrom(c, s, a) == Some(m) && ExecFrom(c, m, b).Some? && b != []
    ensures EndsRaising(c, s, a + b) == EndsRaising(c, m, b)
  {
    var k := |b| - 1;
    assert (a + b)[..|a + b| - 1] == a + b[..k];
    ExecAppend(c, s, a, b[..k]);
  }

  /** All labels are steps of one controller's processing. */
  ghost predicate OwnLabels(ls: seq<Label>, pid: Id) {
    forall i :: 0 <= i < |ls| ==> ls[i] == Fork(pid) || (ls[i].Retrieve? && ls[i].pid == pid)
  }

  lemma {:induction false} ExecAppend(c: Config, s: State, a: seq<Label>, b: seq<Label>)
    requires ExecFrom(c, s, a).Some? && ExecFrom(c, ExecFrom(c, s, a).value, b).Some?
    ensures ExecFrom(c, s, a + b) == ExecFrom(c, ExecFrom(c, s, a).value, b)
    decreases |b|
  {
    if b == [] {
      assert a + b == a;
    } else {
      ExecAppend(c, s, a, b[..|b| - 1]);
      assert (a + b)[..|a + b| - 1] == a + b[..|b| - 1];
    }
  }

  /** A merge that raised stays raised. */
  lemma {:induction false} MergeStops(c: Config, t: TaskData, data: map<Id, TaskData>, order: seq<Id>, k: nat)
    requires k <= |order| && (forall id :: id in order ==> id in data) && MergeAll(c, t, data, order[..k]) == None
    ensures MergeAll(c, t, data, order) == None
    decreases |order| - k
  {
    if k == |order| {
      assert order[..k] == order;
    } else {
      assert order[..k + 1][..k] == order[..k];
      MergeStops(c, t, data, order, k + 1);
    }
  }
}
