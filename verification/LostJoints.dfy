/** A merge that raises loses its joint for good; with that, exactly which graphs give exactly-once runs. */
module LostJoints {
  import opened Graphs
  import opened Wrappers
  import opened Dags
  import opened Protocol
  import opened JoinSafety
  import opened ControllerSteps
  import opened RunInvariant
  import opened ForkStep
  import opened EnterStep
  import opened ExactlyOnce
  import opened LosslessRuns
  import opened OnceIff
  import opened LastToArrive

  // ----- up to the first raise, the table does not matter -----

  /** The same graph with a table that answers at least as often, and the same. */
  ghost predicate Extends(c: Config, d: Config) {
    c.next == d.next && c.prev == d.prev && forall k {:trigger k in c.lca} :: k in c.lca ==>
      k in d.lca && d.lca[k] == c.lca[k]
  }

  /** The step would merge, and one of the merges finds no common ancestor. */
  ghost predicate Raises(c: Config, s: State, l: Label) {
    l.Retrieve? && Enabled(c, s, l)
    && (forall id :: id in l.order ==> id in Stored(s.store, (s.procs[l.pid].task.root, s.procs[l.pid].todo[0])))
    && MergeAll(c, s.procs[l.pid].retrieving.value, Stored(s.store, (s.procs[l.pid].task.root, s.procs[l.pid].todo[0])),
       l.order) == None
  }

  lemma {:induction false} MergeAgrees(c: Config, d: Config, t: TaskData, data: map<Id, TaskData>, order: seq<Id>)
    requires Extends(c, d) && forall id :: id in order ==> id in data
    ensures MergeAll(c, t, data, order).Some? ==> MergeAll(d, t, data, order) == MergeAll(c, t, data, order)
    decreases |order|
  {
    if order != [] {
      MergeAgrees(c, d, t, data, order[..|order| - 1]);
    }
  }

  lemma RetrieveAgrees(c: Config, d: Config, s: State, pid: Id, order: seq<Id>)
    requires Extends(c, d) && Enabled(c, s, Retrieve(pid, order)) && !Raises(c, s, Retrieve(pid, order))
    ensures ApplyRetrieve(d, s, pid, order) == ApplyRetrieve(c, s, pid, order)
  {
    var data := Stored(s.store, (s.procs[pid].task.root, s.procs[pid].todo[0]));
    assert forall id :: id in order ==> id in Elements(order);
    MergeAgrees(c, d, s.procs[pid].retrieving.value, data, order);
  }

  lemma StepAgrees(c: Config, d: Config, s: State, l: Label)
    requires Extends(c, d) && Enabled(d, s, l)
    ensures Enabled(c, s, l) && (!Raises(c, s, l) ==> Apply(c, s, l) == Apply(d, s, l))
  {
    if l.Retrieve? && !Raises(c, s, l) {
      RetrieveAgrees(c, d, s, l.pid, l.order);
    }
  }

  /** A run with the larger table is one with the smaller as far as nothing raises. */
  lemma {:induction false} RunAgrees(c: Config, d: Config, ls: seq<Label>) returns (k: nat)
    requires Extends(c, d) && Exec(d, ls).Some?
    ensures k <= |ls| && Exec(d, ls[..k]).Some? && Exec(c, ls[..k]) == Exec(d, ls[..k])
    ensures k < |ls| ==> Raises(c, Exec(d, ls[..k]).value, ls[k])
  {
    if ls == [] {
      k := 0;
    } else {
      var rest := ls[..|ls| - 1];
      k := RunAgrees(c, d, rest);
      assert rest[..k] == ls[..k];
      if k == |rest| {
        assert rest[..k] == rest;
        StepAgrees(c, d, Exec(d, rest).value, ls[|ls| - 1]);
        if !Raises(c, Exec(d, rest).value, ls[|ls| - 1]) {
          k := |ls|;
          assert ls[..k] == ls;
        }
      }
    }
  }

  /** No step of the run raises. */
  ghost predicate NothingRaised(c: Config, ls: seq<Label>) {
    ls == [] || (NothingRaised(c, ls[..|ls| - 1])
                 && (Exec(c, ls[..|ls| - 1]).Some? ==> !Raises(c, Exec(c, ls[..|ls| - 1]).value, ls[|ls| - 1])))
  }

  lemma {:induction false} SameRun(c: Config, d: Config, ls: seq<Label>)
    requires Extends(c, d) && Exec(c, ls).Some? && NothingRaised(c, ls)
    ensures Exec(d, ls) == Exec(c, ls)
  {
    if ls != [] {
      var rest := ls[..|ls| - 1];
      SameRun(c, d, rest);
      StepAgrees(c, d, Exec(c, rest).value, ls[|ls| - 1]);
    }
  }

  // ----- after a raise -----

  /** `u` has been entered and is done, and nothing of it is left at `j`, which was not entered. */
  ghost predicate Spent(s: State, r: Id, u: Name, j: Name) {
    && r in s.roots && Ent(s, r, u) && !Busy(s, r, u) && !Ent(s, r, j)
    && (forall pid {:trigger s.procs[pid]} :: pid in s.procs ==>
         !(s.procs[pid].task.root == r && s.procs[pid].task.cur == u))
    && (forall id :: id in Stored(s.store, (r, j)) ==> Stored(s.store, (r, j))[id].past != u)
  }

  lemma SpentMoves(s: State, s': State, r: Id, u: Name, j: Name)
    requires Spent(s, r, u, j) && s'.roots >= s.roots && s'.entered == s.entered
    requires forall id :: id in s'.running ==> id in s.running && s'.running[id] == s.running[id]
    requires forall pid {:trigger s'.procs[pid]} :: pid in s'.procs ==>
      !(s'.procs[pid].task.root == r && s'.procs[pid].task.cur == u)
    requires forall id :: id in Stored(s'.store, (r, j)) ==> Stored(s'.store, (r, j))[id].past != u
    ensures Spent(s', r, u, j)
  {
    forall x ensures Ent(s', r, x) <==> Ent(s, r, x) {
      assert forall i :: 0 <= i < |s.entered| ==> (IsEntry(s', i, r, x) <==> IsEntry(s, i, r, x));
    }
    forall id ensures !RunsAt(s', id, r, u) {
      assert !RunsAt(s, id, r, u);
    }
  }

  lemma DispatchSpent(s: State, t: TaskData, o: Origin, r: Id, u: Name, j: Name)
    requires Spent(s, r, u, j) && !(t.root == r && t.cur == u) && !(t.root == r && t.cur == j)
    ensures Spent(Dispatch(s, t, o), r, u, j)
  {
    var s' := Dispatch(s, t, o);
    DispatchEnt(s, t, o);
    forall id ensures !RunsAt(s', id, r, u) {
      assert !RunsAt(s, id, r, u);
    }
  }

  lemma {:induction false} DispatchAllSpent(s: State, root: Id, children: seq<Name>, r: Id, u: Name, j: Name)
    requires Spent(s, r, u, j) && root != r
    ensures Spent(DispatchAll(s, root, children), r, u, j)
    decreases |children|
  {
    if children != [] {
      DispatchAllSpent(s, root, children[..|children| - 1], r, u, j);
      DispatchSpent(DispatchAll(s, root, children[..|children| - 1]),
                    TaskData(root, s.nextId, children[|children| - 1], START, {START}), FromStart, r, u, j);
    }
  }

  lemma AdvanceSpent(s: State, pid: Id, r: Id, u: Name, j: Name)
    requires Spent(s, r, u, j) && pid in s.procs && s.procs[pid].todo != []
    ensures Spent(Advance(s, pid), r, u, j)
  {
    SpentMoves(s, Advance(s, pid), r, u, j);
  }

  /** Nothing is entered twice. */
  lemma SecondEntry(c: Config, s: State, s': State, e: Entry)
    requires s'.entered == s.entered + [e] && Ent(s, e.root, e.service)
    ensures !AtMostOnce(c, s')
  {
    var i :| 0 <= i < |s.entered| && IsEntry(s, i, e.root, e.service);
    assert s'.entered[i] == s.entered[i] && s'.entered[|s.entered|] == e;
  }

  lemma SentSpent(c: Config, s: State, pid: Id, t: TaskData, o: Origin, r: Id, u: Name, j: Name)
    requires Spent(s, r, u, j) && pid in s.procs && s.procs[pid].todo != [] && !(t.root == r && t.cur == j)
    requires AtMostOnce(c, Advance(Dispatch(s, t, o), pid))
    ensures Spent(Advance(Dispatch(s, t, o), pid), r, u, j)
  {
    if t.root == r && t.cur == u {
      SecondEntry(c, s, Advance(Dispatch(s, t, o), pid), Entry(r, u, o));
    } else {
      DispatchSpent(s, t, o, r, u, j);
      AdvanceSpent(Dispatch(s, t, o), pid, r, u, j);
    }
  }

  lemma PutSpent(s: State, t: TaskData, r: Id, u: Name, j: Name)
    requires Spent(s, r, u, j) && !(t.root == r && t.past == u)
    ensures Spent(Put(s, t), r, u, j)
  {
    assert Stored(Put(s, t).store, (r, j)) ==
      if (t.root, t.cur) == (r, j) then Stored(s.store, (r, j))[t.uuid := t] else Stored(s.store, (r, j));
    SpentMoves(s, Put(s, t), r, u, j);
  }

  lemma ForkSpent(c: Config, s: State, pid: Id, r: Id, u: Name, j: Name)
    requires Spent(s, r, u, j) && Enabled(c, s, Fork(pid)) && AtMostOnce(c, ApplyFork(c, s, pid))
    requires j in c.prev && |c.prev[j]| > 1
    ensures Spent(ApplyFork(c, s, pid), r, u, j)
  {
    var t := Forked(s, s.procs[pid]);
    if |c.prev[t.cur]| <= 1 {
      DirectSpent(c, s, pid, t, r, u, j);
    } else {
      StoredSpent(s, pid, t, r, u, j);
    }
  }

  lemma DirectSpent(c: Config, s: State, pid: Id, t: TaskData, r: Id, u: Name, j: Name)
    requires Spent(s, r, u, j) && pid in s.procs && s.procs[pid].todo != [] && t.cur != j
    requires AtMostOnce(c, Advance(Dispatch(s.(nextId := s.nextId + 1), t, FromReturn({t.past})), pid))
    ensures Spent(Advance(Dispatch(s.(nextId := s.nextId + 1), t, FromReturn({t.past})), pid), r, u, j)
  {
    var s1 := s.(nextId := s.nextId + 1);
    SpentMoves(s, s1, r, u, j);
    SentSpent(c, s1, pid, t, FromReturn({t.past}), r, u, j);
  }

  lemma StoredSpent(s: State, pid: Id, t: TaskData, r: Id, u: Name, j: Name)
    requires Spent(s, r, u, j) && pid in s.procs && s.procs[pid].todo != [] && !(t.root == r && t.past == u)
    ensures Spent(Advance(Put(s, t), pid), r, u, j) && Spent(Claim(Put(s, t), pid, t), r, u, j)
  {
    PutSpent(s, t, r, u, j);
    AdvanceSpent(Put(s, t), pid, r, u, j);
    SpentMoves(Put(s, t), Claim(Put(s, t), pid, t), r, u, j);
  }

  /** Without a task from `u` the joint is not entered. */
  lemma NotJoined(c: Config, s: State, s': State, m: TaskData, r: Id, u: Name, j: Name)
    requires Safe(c, s') && Spent(s, r, u, j) && Edge(c.prev, j, u) && m.cur == j && m.root == r
    ensures s'.entered != s.entered + [Entry(m.root, m.cur, FromReturn(Pasts(Stored(s.store, (r, j)))))]
  {
    assert u !in Pasts(Stored(s.store, (r, j)));
    assert u in Elements(c.prev[j]);
    if |s'.entered| > |s.entered| {
      assert EntrySafe(c, s'.entered[|s.entered|]);
    }
  }

  lemma TakenSpent(s: State, key: (Id, Name), r: Id, u: Name, j: Name)
    requires Spent(s, r, u, j)
    ensures Spent(Taken(s, key), r, u, j)
  {
    assert Stored(Taken(s, key).store, (r, j)) == if key == (r, j) then map[] else Stored(s.store, (r, j));
    SpentMoves(s, Taken(s, key), r, u, j);
  }

  lemma JoinSpent(c: Config, s: State, pid: Id, m: TaskData, after: State, r: Id, u: Name, j: Name)
    requires Spent(s, r, u, j) && Edge(c.prev, j, u) && pid in s.procs && s.procs[pid].todo != []
    requires after == Advance(Dispatch(Taken(s, (m.root, m.cur)), m,
      FromReturn(Pasts(Stored(s.store, (m.root, m.cur))))), pid)
    requires Safe(c, after) && AtMostOnce(c, after)
    ensures Spent(after, r, u, j)
  {
    TakenSpent(s, (m.root, m.cur), r, u, j);
    if m.root == r && m.cur == j {
      NotJoined(c, s, after, m, r, u, j);
    } else {
      SentSpent(c, Taken(s, (m.root, m.cur)), pid, m, FromReturn(Pasts(Stored(s.store, (m.root, m.cur)))), r, u, j);
    }
  }

  lemma DropSpent(s: State, pid: Id, r: Id, u: Name, j: Name)
    requires Spent(s, r, u, j)
    ensures Spent(s.(procs := s.procs - {pid}), r, u, j)
  {
    SpentMoves(s, s.(procs := s.procs - {pid}), r, u, j);
  }

  lemma RetrieveSpent(c: Config, s: State, pid: Id, order: seq<Id>, r: Id, u: Name, j: Name)
    requires Inverse(c.next, c.prev) && Safe(c, s) && Edge(c.prev, j, u)
    requires Spent(s, r, u, j) && Enabled(c, s, Retrieve(pid, order)) && AtMostOnce(c, ApplyRetrieve(c, s, pid, order))
    ensures Spent(ApplyRetrieve(c, s, pid, order), r, u, j)
  {
    var key := (s.procs[pid].task.root, s.procs[pid].todo[0]);
    var after := ApplyRetrieve(c, s, pid, order);
    RetrieveSafe(c, s, pid, order);
    TakenSpent(s, key, r, u, j);
    var m := RetrieveCases(c, s, pid, order);
    if after == Advance(s, pid) {
      AdvanceSpent(s, pid, r, u, j);
    } else if after == Advance(Taken(s, key), pid) {
      AdvanceSpent(Taken(s, key), pid, r, u, j);
    } else if after == Advance(Dispatch(Taken(s, key), m, FromReturn(Pasts(Stored(s.store, key)))), pid) {
      JoinSpent(c, s, pid, m, after, r, u, j);
    } else {
      DropSpent(Taken(s, key), pid, r, u, j);
    }
  }

  lemma ReturnSpent(c: Config, s: State, id: Id, r: Id, u: Name, j: Name)
    requires Spent(s, r, u, j) && Enabled(c, s, Return(id))
    ensures Spent(ApplyReturn(c, s, id), r, u, j)
  {
    assert !RunsAt(s, id, r, u);
    SpentMoves(s, ApplyReturn(c, s, id), r, u, j);
  }

  lemma StepSpent(c: Config, s: State, l: Label, r: Id, u: Name, j: Name)
    requires Inverse(c.next, c.prev) && Safe(c, s) && Edge(c.prev, j, u) && |c.prev[j]| > 1
    requires Spent(s, r, u, j) && Enabled(c, s, l) && Lossless(l) && AtMostOnce(c, Apply(c, s, l))
    ensures Spent(Apply(c, s, l), r, u, j)
  {
    match l
    case Start(root) =>
      SpentMoves(s, s.(roots := s.roots + {root}), r, u, j);
      DispatchAllSpent(s.(roots := s.roots + {root}), root, c.next[START], r, u, j);
    case Return(id) => ReturnSpent(c, s, id, r, u, j);
    case Fork(pid) => ForkSpent(c, s, pid, r, u, j);
    case Retrieve(pid, order) => RetrieveSpent(c, s, pid, order, r, u, j);
  }

  ghost predicate OnceAt(c: Config, ls: seq<Label>, m: nat)
    requires m <= |ls|
  {
    Exec(c, ls[..m]).Some? ==> AtMostOnce(c, Exec(c, ls[..m]).value)
  }

  /** After the `n`th step nothing is entered twice. */
  ghost predicate OnceFrom(c: Config, ls: seq<Label>, n: nat) {
    forall m {:trigger OnceAt(c, ls, m)} :: n < m <= |ls| ==> OnceAt(c, ls, m)
  }

  /** As long as the run goes on entering nothing twice, a spent predecessor stays spent. */
  lemma {:induction false} SpentForGood(c: Config, ls: seq<Label>, n: nat, r: Id, u: Name, j: Name)
    requires Inverse(c.next, c.prev) && Edge(c.prev, j, u) && |c.prev[j]| > 1
    requires AllLossless(ls) && Exec(c, ls).Some? && n <= |ls| && OnceFrom(c, ls, n)
    requires Exec(c, ls[..n]).Some? && Spent(Exec(c, ls[..n]).value, r, u, j)
    ensures Spent(Exec(c, ls).value, r, u, j)
    decreases |ls|
  {
    if n == |ls| {
      assert ls[..n] == ls;
    } else {
      var rest := ls[..|ls| - 1];
      assert rest[..n] == ls[..n];
      OnceBefore(c, ls, n);
      SpentForGood(c, rest, n, r, u, j);
      JoinSafe(c, rest);
      assert ls[..|ls|] == ls && OnceAt(c, ls, |ls|);
      StepSpent(c, Exec(c, rest).value, ls[|ls| - 1], r, u, j);
    }
  }

  lemma OnceBefore(c: Config, ls: seq<Label>, n: nat)
    requires OnceFrom(c, ls, n) && ls != []
    ensures OnceFrom(c, ls[..|ls| - 1], n)
  {
    var rest := ls[..|ls| - 1];
    forall m | n < m <= |rest| ensures OnceAt(c, rest, m) {
      assert rest[..m] == ls[..m];
      assert OnceAt(c, ls, m);
    }
  }

  /** What a raise leaves behind. */
  lemma RaiseSpends(c: Config, d: Config, s: State, l: Label)
    requires Extends(c, d) && GoodConfig(d) && Inv(d, s) && Raises(c, s, l)
    ensures var p := s.procs[l.pid];
      && Spent(Apply(c, s, l), p.task.root, p.task.cur, p.todo[0])
      && Edge(c.prev, p.todo[0], p.task.cur) && |c.prev[p.todo[0]]| > 1 && p.todo[0] in c.next && p.todo[0] != START
  {
    var p := s.procs[l.pid];
    RetrieverFindsAll(d, s, l.pid);
    JointHasSource(d, s, p);
    assert Sent(d, s, p.task.root, p.task.cur, p.todo[0]);
    LosesJoint(s, l.pid);
    assert Apply(c, s, l) == Taken(s, (p.task.root, p.todo[0])).(procs := s.procs - {l.pid});
  }

  /** What was taken is gone, and so is the controller. */
  lemma LosesJoint(s: State, pid: Id)
    requires Retrieving(s, pid) && OnePerSpot(s)
    requires var p := s.procs[pid];
      p.task.root in s.roots && Ent(s, p.task.root, p.task.cur) && !Busy(s, p.task.root, p.task.cur) &&
      !Ent(s, p.task.root, p.todo[0])
    ensures var p := s.procs[pid];
      Spent(Taken(s, (p.task.root, p.todo[0])).(procs := s.procs - {pid}), p.task.root, p.task.cur, p.todo[0])
  {
    var p := s.procs[pid];
    var s' := Taken(s, (p.task.root, p.todo[0])).(procs := s.procs - {pid});
    SameRunning(s, s');
    forall k | k in s'.procs ensures !(s'.procs[k].task.root == p.task.root && s'.procs[k].task.cur == p.task.cur) {
      assert !SameSpot(s.procs[k].task, s.procs[pid].task);
    }
  }

  /** A loss-free run in which a merge raises is continued to one that never enters that joint. */
  lemma RaiseIsNotOnce(c: Config, d: Config, before: seq<Label>, l: Label)
    requires NormalConfig(c) && Extends(c, d) && GoodConfig(d)
    requires AllLossless(before) && Exec(c, before).Some? && Inv(d, Exec(c, before).value) &&
      Raises(c, Exec(c, before).value, l)
    ensures !EveryRunOnce(c)
  {
    if EveryRunOnce(c) {
      InverseClosed(c.next, c.prev);
      var s := Exec(c, before).value;
      var r, u, j := s.procs[l.pid].task.root, s.procs[l.pid].task.cur, s.procs[l.pid].todo[0];
      RaiseSpends(c, d, s, l);
      var ls := before + [l];
      assert ls[..|ls| - 1] == before;
      var all := RunsOut(c, ls);
      assert all[..|ls|] == ls;
      forall m | |ls| < m <= |all| ensures OnceAt(c, all, m) {
        assert RunOnce(c, all[..m]);
      }
      SpentForGood(c, all, |ls|, r, u, j);
      NeverEntered(c, all, r, u, j);
    }
  }

  lemma NeverEntered(c: Config, ls: seq<Label>, r: Id, u: Name, j: Name)
    requires AllLossless(ls) && Exec(c, ls).Some? && Quiet(c, Exec(c, ls).value) && j in c.next && j != START
    requires Spent(Exec(c, ls).value, r, u, j)
    ensures !EveryRunOnce(c)
  {
    var s := Exec(c, ls).value;
    assert forall i :: 0 <= i < |s.entered| ==> !IsEntry(s, i, r, j);
    assert Entries(s, r, j) == {};
    assert !RunOnce(c, ls);
  }

  // ----- exactly which graphs -----

  ghost function FullTable(c: Config): map<(Name, Name), Name> {
    map u, v | u in c.next && v in c.next :: (u, v) := if (u, v) in c.lca then c.lca[(u, v)] else u
  }

  /** With answers for the pairs the table lacks, the graph is good. */
  lemma FullIsGood(c: Config, d: Config)
    requires NormalConfig(c) && AllClean(c) && d == Config(c.next, c.prev, FullTable(c) + c.lca)
    ensures GoodConfig(d) && Extends(c, d)
  {
    InverseClosed(c.next, c.prev);
    forall n | n in d.next ensures CleanPrev(d, n) {
      assert CleanPrev(c, n);
    }
    forall j, u, v | j in d.prev && u in d.prev[j] && v in d.prev[j] ensures (u, v) in d.lca {
      assert u in c.next && v in c.next;
    }
    TotalMerges(d);
  }

  lemma SameLast(c: Config, d: Config, u: Name, j: Name)
    requires c.next == d.next && c.prev == d.prev
    ensures CanBeLast(c, u, j) <==> CanBeLast(d, u, j)
  {
    assert forall b :: ServedAfter(d, u, j, b) <==> ServedAfter(c, u, j, b);
  }

  /** Until a merge raises, whoever retrieves in a loss-free run on a clean graph is one that can be last. */
  lemma ArrivesLast(c: Config, ls: seq<Label>, pid: Id)
    requires NormalConfig(c) && AllClean(c) && AllLossless(ls) && Exec(c, ls).Some? && NothingRaised(c, ls)
    requires Retrieving(Exec(c, ls).value, pid)
    ensures var p := Exec(c, ls).value.procs[pid]; CanBeLast(c, p.task.cur, p.todo[0])
  {
    var d, s := Config(c.next, c.prev, FullTable(c) + c.lca), Exec(c, ls).value;
    FullIsGood(c, d);
    SameRun(c, d, ls);
    RunKeeps(d, ls);
    RetrieverFindsAll(d, s, pid);
    var p := s.procs[pid];
    JointHasSource(d, s, p);
    JointIsClean(d, p.task.cur, p.todo[0]);
    RetrieverIsLast(d, s, pid);
    SameLast(c, d, p.task.cur, p.todo[0]);
  }

  lemma JointHasSource(c: Config, s: State, p: Proc)
    requires Inverse(c.next, c.prev) && ProcOk(c, s, p)
    ensures Edge(c.next, p.task.cur, p.todo[0]) && Edge(c.prev, p.todo[0], p.task.cur)
  {
    assert p.todo[0] == c.next[p.task.cur][|c.next[p.task.cur]| - |p.todo|];
    assert Edge(c.next, p.task.cur, p.todo[0]);
  }

  /** A predecessor that can be last and cannot merge gives a run that loses the joint. */
  lemma LastMustMerge(c: Config, u: Name, j: Name)
    requires NormalConfig(c) && AllClean(c) && CanBeLast(c, u, j) && |c.prev[j]| > 1 && START !in c.prev[j]
    requires !MergesAll(c, u, j)
    ensures !EveryRunOnce(c)
  {
    var d := Config(c.next, c.prev, FullTable(c) + c.lca);
    FullIsGood(c, d);
    SameLast(c, d, u, j);
    var ls, pid := SomeRunArrives(d, u, j);
    var k := RunAgrees(c, d, ls);
    RunKeeps(d, ls[..k]);
    if k < |ls| {
      RaiseIsNotOnce(c, d, ls[..k], ls[k]);
    } else {
      assert ls[..k] == ls;
      var l := ArrivalRaises(c, d, Exec(d, ls).value, pid);
      RaiseIsNotOnce(c, d, ls, l);
    }
  }

  lemma ArrivalRaises(c: Config, d: Config, s: State, pid: Id) returns (l: Label)
    requires Extends(c, d) && GoodConfig(d) && Inv(d, s) && Retrieving(s, pid)
    requires s.procs[pid].todo[0] in c.prev && !MergesAll(c, s.procs[pid].task.cur, s.procs[pid].todo[0])
    ensures Raises(c, s, l)
  {
    var p := s.procs[pid];
    var data := Stored(s.store, (p.task.root, p.todo[0]));
    RetrieverFindsAll(d, s, pid);
    var order := Enumerate(data.Keys);
    assert forall id :: id in order <==> id in Elements(order);
    l := Retrieve(pid, order);
    assert p.todo[0] == c.next[p.task.cur][|c.next[p.task.cur]| - |p.todo|];
    assert Edge(c.next, p.task.cur, p.todo[0]);
    if MergeAll(c, p.retrieving.value, data, order).Some? {
      MergeAnswers(c, p.retrieving.value, data, order);
      RetrieverMerges(c, p.task.cur, p.todo[0], data, order);
    }
  }

  /**
   Every loss-free run is exactly-once if and only if every node is entered from the start alone or lists its
   predecessors once each without the start, and whoever can be last at a joint can merge with everybody there.
   */
  lemma OnceIffMerging(c: Config)
    requires NormalConfig(c)
    ensures EveryRunOnce(c) <==> AllClean(c) && LastMerges(c)
  {
    if AllClean(c) && LastMerges(c) {
      GoodIsOnce(c);
    }
    if EveryRunOnce(c) {
      forall n | n in c.next ensures CleanPrev(c, n) {
        if !CleanPrev(c, n) {
          NotOnce(c, n);
        }
      }
      forall j, u | CanBeLast(c, u, j) && |c.prev[j]| > 1 && START !in c.prev[j] ensures MergesAll(c, u, j) {
        if !MergesAll(c, u, j) {
          LastMustMerge(c, u, j);
        }
      }
    }
  }
}
