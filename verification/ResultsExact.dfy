/** On good graphs: exactly when every task of every loss-free run holds all results above its place. */
module ResultsExact {
  import opened Graphs
  import opened Wrappers
  import opened Dags
  import opened Protocol
  import opened JoinSafety
  import opened RunInvariant
  import opened ForkStep
  import opened EnterStep
  import opened ExactlyOnce
  import opened LastToArrive
  import opened ResultsComplete
  import opened ResultsDropped

  /** Whoever can be last at a joint gains whatever lies above it. */
  ghost predicate LastCovered(c: Config) {
    forall j, u {:trigger Covers(c, u, j)} ::
      CanBeLast(c, u, j) && |c.prev[j]| > 1 && START !in c.prev[j] ==> Covers(c, u, j)
  }

  /** The run leaves every task holding all that lies above its place. */
  ghost predicate RunHolds(c: Config, ls: seq<Label>) {
    AllLossless(ls) && Exec(c, ls).Some? ==> Complete(c, Exec(c, ls).value)
  }

  ghost predicate EveryRunHolds(c: Config) {
    forall ls {:trigger RunHolds(c, ls)} :: RunHolds(c, ls)
  }

  lemma RetrieveIsCovered(c: Config, s: State, l: Label)
    requires GoodConfig(c) && LastCovered(c) && Inv(c, s)
    ensures CoveredStep(c, s, l)
  {
    if l.Retrieve? && Enabled(c, s, l) {
      var p := s.procs[l.pid];
      RetrieverFindsAll(c, s, l.pid);
      assert p.todo[0] == c.next[p.task.cur][|c.next[p.task.cur]| - |p.todo|];
      assert Edge(c.next, p.task.cur, p.todo[0]);
      assert Edge(c.prev, p.todo[0], p.task.cur);
      JointIsClean(c, p.task.cur, p.todo[0]);
      RetrieverIsLast(c, s, l.pid);
    }
  }

  lemma {:induction false} LosslessHolds(c: Config, ls: seq<Label>)
    requires GoodConfig(c) && LastCovered(c) && AllLossless(ls) && Exec(c, ls).Some?
    ensures Complete(c, Exec(c, ls).value)
  {
    if ls != [] {
      var before := ls[..|ls| - 1];
      LosslessHolds(c, before);
      JoinSafe(c, before);
      RunKeeps(c, before);
      StartChildren(c);
      RetrieveIsCovered(c, Exec(c, before).value, ls[|ls| - 1]);
      StepComplete(c, Exec(c, before).value, ls[|ls| - 1]);
    }
  }

  /** The task runs in its service, or was delivered at the end. */
  ghost predicate Came(s: State, m: TaskData) {
    if m.cur == END then m in s.delivered else exists id :: id in s.running && s.running[id] == m
  }

  /** In some loss-free run a task arrives at the joint with no more than its last predecessor gains. */
  lemma LastArrival(c: Config, u: Name, j: Name) returns (ls: seq<Label>, m: TaskData)
    requires GoodConfig(c) && CanBeLast(c, u, j) && |c.prev[j]| > 1 && START !in c.prev[j]
    ensures AllLossless(ls) && Exec(c, ls).Some? && m.cur == j && m.held <= Gain(c, u, j)
    ensures Came(Exec(c, ls).value, m)
  {
    var before, pid := SomeRunArrives(c, u, j);
    var s := Exec(c, before).value;
    JoinSafe(c, before);
    RunWithin(c, before);
    var order := Enumerate(Stored(s.store, (s.procs[pid].task.root, j)).Keys);
    m := ArrivalResult(c, s, pid, order);
    ls := before + [Retrieve(pid, order)];
    ExecNext(c, before, Retrieve(pid, order));
  }

  /** What the retrieval merges: no more than its controller's predecessor gains. */
  lemma ArrivalGain(c: Config, s: State, pid: Id, order: seq<Id>) returns (m: TaskData)
    requires GoodConfig(c) && Inv(c, s) && Within(c, s) && Enabled(c, s, Retrieve(pid, order))
    ensures var p := s.procs[pid];
      var data := Stored(s.store, (p.task.root, p.todo[0]));
      && MergeAll(c, p.retrieving.value, data, order) == Some(m)
      && |data| == |Pasts(data)| == |c.prev[p.todo[0]]| && data != map[] && |Curs(data)| == 1
      && m.cur == p.todo[0] && m.cur in c.prev && m.held <= Gain(c, p.task.cur, m.cur)
  {
    var p := s.procs[pid];
    var data := Stored(s.store, (p.task.root, p.todo[0]));
    RetrieverFindsAll(c, s, pid);
    assert ProcWithin(c, p);
    MergeSucceeds(c, p.retrieving.value, data, order);
    MergeKeepsPlace(c, p.retrieving.value, data, order);
    assert p.todo[0] == c.next[p.task.cur][|c.next[p.task.cur]| - |p.todo|];
    assert Edge(c.next, p.task.cur, p.todo[0]);
    MergedArrives(c, p.retrieving.value, data, order);
    m := MergeAll(c, p.retrieving.value, data, order).value;
  }

  /** What the retrieval submits. */
  lemma ArrivalResult(c: Config, s: State, pid: Id, order: seq<Id>) returns (m: TaskData)
    requires GoodConfig(c) && Inv(c, s) && Within(c, s) && Enabled(c, s, Retrieve(pid, order))
    ensures m.cur == s.procs[pid].todo[0] && m.cur in c.prev && m.held <= Gain(c, s.procs[pid].task.cur, m.cur)
    ensures Came(ApplyRetrieve(c, s, pid, order), m)
  {
    m := ArrivalGain(c, s, pid, order);
    var key := (s.procs[pid].task.root, s.procs[pid].todo[0]);
    var o := FromReturn(Pasts(Stored(s.store, key)));
    assert ApplyRetrieve(c, s, pid, order) == Advance(Dispatch(Taken(s, key), m, o), pid);
    Submitted(Taken(s, key), m, o, pid);
  }

  lemma Submitted(s: State, m: TaskData, o: Origin, pid: Id)
    requires pid in s.procs && s.procs[pid].todo != []
    ensures Came(Advance(Dispatch(s, m, o), pid), m)
  {
    var s' := Advance(Dispatch(s, m, o), pid);
    if m.cur == END {
      assert s'.delivered[|s.delivered|] == m;
    } else {
      assert s.nextId in s'.running && s'.running[s.nextId] == m;
    }
  }

  /**
   Every task of every loss-free run holds all results above its place if and only if whoever can be last at a
   joint gains them.
   */
  lemma HoldsIff(c: Config)
    requires GoodConfig(c)
    ensures EveryRunHolds(c) <==> LastCovered(c)
  {
    if LastCovered(c) {
      forall ls ensures RunHolds(c, ls) {
        if AllLossless(ls) && Exec(c, ls).Some? {
          LosslessHolds(c, ls);
        }
      }
    }
    if EveryRunHolds(c) {
      forall j, u | CanBeLast(c, u, j) && |c.prev[j]| > 1 && START !in c.prev[j] ensures Covers(c, u, j) {
        var ls, m := LastArrival(c, u, j);
        assert RunHolds(c, ls);
        assert HoldsAbove(c, m);
      }
    }
  }

  /**
   If someone who can be last at the end does not gain everything, a loss-free run delivers a task that lacks a
   result.
   */
  lemma SomeDeliveredLacks(c: Config, u: Name) returns (ls: seq<Label>, t: TaskData)
    requires GoodConfig(c) && CanBeLast(c, u, END) && |c.prev[END]| > 1 && START !in c.prev[END] && !Covers(c, u, END)
    ensures AllLossless(ls) && Exec(c, ls).Some? && t in Exec(c, ls).value.delivered && !(c.next.Keys - {END} <= t.held)
  {
    ls, t := LastArrival(c, u, END);
    var a :| a in Lca.Ancestors(c.prev, END) - {END} && a !in Gain(c, u, END);
    assert a in c.next.Keys - {END} && a !in t.held;
  }
}
