/** What every loss-free, duplicate-free run keeps: at most one task per place, and every edge accounted for. */
module RunInvariant {
  import opened Graphs
  import opened Dags
  import opened Protocol
  import JoinSafety

  /** One source, one sink, mirrored lists without cycles, and no successor listed twice. */
  ghost predicate NormalConfig(c: Config) {
    && Inverse(c.next, c.prev) && Acyclic(c.next)
    && START in c.next && END in c.next
    && (forall n :: n in c.next ==> (c.prev[n] == [] <==> n == START) && (c.next[n] == [] <==> n == END))
    && (forall n :: n in c.next ==> Distinct(c.next[n]))
  }

  /** Such a graph whose joints can be counted and merged. */
  ghost predicate GoodConfig(c: Config) {
    NormalConfig(c) && AllClean(c) && LastMerges(c)
  }

  ghost predicate AllClean(c: Config) {
    forall n :: n in c.next ==> CleanPrev(c, n)
  }

  /** Entered from the start alone, however often that is listed, or from predecessors listed once each. */
  ghost predicate CleanPrev(c: Config, n: Name) {
    n in c.prev ==> Elements(c.prev[n]) <= {START} || (Distinct(c.prev[n]) && START !in c.prev[n])
  }

  /** The common-ancestor search answers for any two predecessors of a joint. */
  ghost predicate LcaTotal(c: Config) {
    forall j, u, v :: j in c.prev && |c.prev[j]| > 1 && START !in c.prev[j] && u in c.prev[j] && v in c.prev[j] ==>
      (u, v) in c.lca
  }

  /** `b` comes after `j` among the joints that are served when `u` has returned. */
  ghost predicate ServedAfter(c: Config, u: Name, j: Name, b: Name) {
    u in c.next && exists i, k :: 0 <= i < k < |c.next[u]| && c.next[u][i] == j && c.next[u][k] == b
  }

  /** The predecessor can be the last one served at `j`: no other one lies below a joint it serves after `j`. */
  ghost predicate CanBeLast(c: Config, u: Name, j: Name) {
    && Edge(c.next, u, j) && j in c.prev
    && forall v, b :: v in c.prev[j] && v != u && ServedAfter(c, u, j, b) ==> !Reach(c.next, b, v)
  }

  /** Whoever can be last at a joint finds a common ancestor with every predecessor. */
  ghost predicate LastMerges(c: Config) {
    forall j, u {:trigger CanBeLast(c, u, j)} ::
      CanBeLast(c, u, j) && |c.prev[j]| > 1 && START !in c.prev[j] ==> JoinSafety.MergesAll(c, u, j)
  }

  lemma TotalMerges(c: Config)
    requires Inverse(c.next, c.prev) && LcaTotal(c)
    ensures LastMerges(c)
  {
    forall j, u | CanBeLast(c, u, j) && |c.prev[j]| > 1 && START !in c.prev[j] ensures JoinSafety.MergesAll(c, u, j) {
      assert Edge(c.prev, j, u);
    }
  }

  // ----- where a root task is -----

  ghost predicate IsEntry(s: State, i: int, r: Id, j: Name)
    requires 0 <= i < |s.entered|
  {
    s.entered[i].root == r && s.entered[i].service == j
  }

  ghost predicate Ent(s: State, r: Id, j: Name) {
    exists i :: 0 <= i < |s.entered| && IsEntry(s, i, r, j)
  }

  ghost predicate RunsAt(s: State, id: Id, r: Id, u: Name) {
    id in s.running && s.running[id].root == r && s.running[id].cur == u
  }

  ghost predicate Busy(s: State, r: Id, u: Name) {
    exists id :: RunsAt(s, id, r, u)
  }

  /** The joints a controller has neither served nor begun to retrieve. */
  ghost function Pending(p: Proc): seq<Name> {
    if p.retrieving.Some? && p.todo != [] then p.todo[1..] else p.todo
  }

  ghost predicate WaitsIn(s: State, pid: Id, r: Id, u: Name, j: Name) {
    pid in s.procs && s.procs[pid].task.root == r && s.procs[pid].task.cur == u && j in Pending(s.procs[pid])
  }

  ghost predicate Pend(s: State, r: Id, u: Name, j: Name) {
    exists pid :: WaitsIn(s, pid, r, u, j)
  }

  ghost predicate RetrievesAt(s: State, pid: Id, r: Id, j: Name) {
    pid in s.procs && s.procs[pid].retrieving.Some? && s.procs[pid].task.root == r &&
      s.procs[pid].retrieving.value.cur == j
  }

  ghost predicate Retr(s: State, r: Id, j: Name) {
    exists pid :: RetrievesAt(s, pid, r, j)
  }

  /** The edge has been taken: its source was entered, returned, and served this joint. */
  ghost predicate Sent(c: Config, s: State, r: Id, u: Name, j: Name) {
    Edge(c.next, u, j) && (u == START || (Ent(s, r, u) && !Busy(s, r, u) && !Pend(s, r, u, j)))
  }

  ghost predicate AllSent(c: Config, s: State, r: Id, j: Name)
    requires j in c.prev
  {
    forall u {:trigger Sent(c, s, r, u, j)} :: u in c.prev[j] ==> Sent(c, s, r, u, j)
  }

  /** The store holds one task for every edge into `j` that was taken, and nothing else. */
  ghost predicate StoreExact(c: Config, s: State, r: Id, j: Name)
    requires j in c.prev
  {
    var data := Stored(s.store, (r, j));
    && (forall id {:trigger data[id]} :: id in data ==> data[id].cur == j && Sent(c, s, r, data[id].past, j))
    && (forall a, b {:trigger data[a], data[b]} :: a in data && b in data && data[a].past == data[b].past ==> a == b)
    && (forall u {:trigger Sent(c, s, r, u, j)} :: Sent(c, s, r, u, j) ==> u in Pasts(data))
  }

  ghost predicate NodeOk(c: Config, s: State, r: Id, j: Name)
    requires j in c.prev
  {
    if |c.prev[j]| <= 1 then
      (Ent(s, r, j) <==> AllSent(c, s, r, j)) && !Retr(s, r, j) && (r, j) !in s.store
    else
      && (Ent(s, r, j) ==> AllSent(c, s, r, j) && !Retr(s, r, j) && (r, j) !in s.store)
      && (!Ent(s, r, j) ==> StoreExact(c, s, r, j) && (AllSent(c, s, r, j) <==> Retr(s, r, j)))
  }

  ghost predicate AllNodesOk(c: Config, s: State)
    requires Inverse(c.next, c.prev)
  {
    forall r, j {:trigger NodeOk(c, s, r, j)} :: r in s.roots && j in c.next && j != START ==> NodeOk(c, s, r, j)
  }

  // ----- the shape of a state -----

  ghost predicate PlaceOk(c: Config, s: State, t: TaskData) {
    t.root in s.roots && t.cur in c.next && t.cur != START && t.cur != END && Ent(s, t.root, t.cur)
  }

  ghost predicate IsSuffix(a: seq<Name>, b: seq<Name>) {
    |a| <= |b| && a == b[|b| - |a|..]
  }

  ghost predicate ProcOk(c: Config, s: State, p: Proc) {
    && PlaceOk(c, s, p.task)
    && p.todo != [] && IsSuffix(p.todo, c.next[p.task.cur])
    && (p.retrieving.Some? ==>
      && p.retrieving.value.root == p.task.root && p.retrieving.value.past == p.task.cur
      && p.retrieving.value.cur == p.todo[0] && p.todo[0] in c.prev && |c.prev[p.todo[0]]| > 1)
  }

  ghost predicate SameSpot(a: TaskData, b: TaskData) {
    a.root == b.root && a.cur == b.cur
  }

  ghost predicate OnePerSpot(s: State) {
    && (forall i, k {:trigger s.running[i], s.running[k]} ::
         i in s.running && k in s.running && SameSpot(s.running[i], s.running[k]) ==> i == k)
    && (forall i, k {:trigger s.running[i], s.procs[k]} :: i in s.running && k in s.procs ==>
         !SameSpot(s.running[i], s.procs[k].task))
    && ProcsApart(s)
  }

  /** No two controllers process the same service's return, or retrieve for the same joint, of one root task. */
  ghost predicate ProcsApart(s: State) {
    && (forall i, k {:trigger s.procs[i], s.procs[k]} ::
         i in s.procs && k in s.procs && SameSpot(s.procs[i].task, s.procs[k].task) ==> i == k)
    && (forall i, k, r, j {:trigger RetrievesAt(s, i, r, j), RetrievesAt(s, k, r, j)} ::
      RetrievesAt(s, i, r, j) && RetrievesAt(s, k, r, j) ==> i == k)
  }

  /** Entries are unique, and every predecessor was entered before. */
  ghost predicate EntryOk(c: Config, s: State, i: int)
    requires 0 <= i < |s.entered|
  {
    var e := s.entered[i];
    && e.root in s.roots && e.service in c.prev && e.service != START
    && (forall k :: 0 <= k < i ==> !IsEntry(s, k, e.root, e.service))
    && (forall u :: u in c.prev[e.service] && u != START ==> exists k :: 0 <= k < i && IsEntry(s, k, e.root, u))
  }

  ghost predicate DeliveredOk(s: State) {
    && (forall i, k :: 0 <= i < k < |s.delivered| ==> s.delivered[i].root != s.delivered[k].root)
    && (forall i :: 0 <= i < |s.delivered| ==> s.delivered[i].cur == END && Ent(s, s.delivered[i].root, END))
    && (forall r :: Ent(s, r, END) ==> HasDelivery(s, r))
  }

  ghost predicate HasDelivery(s: State, r: Id) {
    exists i :: 0 <= i < |s.delivered| && s.delivered[i].root == r
  }

  ghost predicate Ids(s: State) {
    && (forall id :: id in s.running ==> id < s.nextId)
    && (forall id :: id in s.procs ==> id < s.nextId)
    && (forall key {:trigger s.store[key]} :: key in s.store ==> key.0 in s.roots && forall id :: id in s.store[key] ==>
         id < s.nextId)
  }

  ghost predicate Shape(c: Config, s: State) {
    && Ids(s) && OnePerSpot(s) && DeliveredOk(s)
    && RunningOk(c, s) && ProcsOk(c, s) && EntriesOk(c, s)
  }

  ghost predicate RunningOk(c: Config, s: State) {
    forall id {:trigger PlaceOk(c, s, s.running[id])} :: id in s.running ==> PlaceOk(c, s, s.running[id])
  }

  ghost predicate ProcsOk(c: Config, s: State) {
    forall pid {:trigger ProcOk(c, s, s.procs[pid])} :: pid in s.procs ==> ProcOk(c, s, s.procs[pid])
  }

  ghost predicate EntriesOk(c: Config, s: State) {
    forall i {:trigger EntryOk(c, s, i)} :: 0 <= i < |s.entered| ==> EntryOk(c, s, i)
  }

  ghost predicate Inv(c: Config, s: State)
    requires Inverse(c.next, c.prev)
  {
    Shape(c, s) && AllNodesOk(c, s)
  }

  // ----- the elementary changes -----

  lemma DispatchEnt(s: State, t: TaskData, o: Origin)
    ensures forall r, j :: Ent(Dispatch(s, t, o), r, j) <==> Ent(s, r, j) || (r == t.root && j == t.cur)
  {
    var s' := Dispatch(s, t, o);
    forall r, j ensures Ent(s', r, j) <==> Ent(s, r, j) || (r == t.root && j == t.cur) {
      if Ent(s, r, j) {
        var i :| 0 <= i < |s.entered| && IsEntry(s, i, r, j);
        assert IsEntry(s', i, r, j);
      }
      assert IsEntry(s', |s.entered|, t.root, t.cur);
      if Ent(s', r, j) && !(r == t.root && j == t.cur) {
        var i :| 0 <= i < |s'.entered| && IsEntry(s', i, r, j);
        assert i < |s.entered| && IsEntry(s, i, r, j);
      }
    }
  }

  lemma DispatchBusy(s: State, t: TaskData, o: Origin)
    requires Ids(s)
    ensures forall r, u :: Busy(Dispatch(s, t, o), r, u) <==> Busy(s, r, u) || (r == t.root && u == t.cur && u != END)
  {
    var s' := Dispatch(s, t, o);
    forall r, u ensures Busy(s', r, u) <==> Busy(s, r, u) || (r == t.root && u == t.cur && u != END) {
      if Busy(s, r, u) {
        var id :| RunsAt(s, id, r, u);
        assert RunsAt(s', id, r, u);
      }
      if r == t.root && u == t.cur && u != END {
        assert RunsAt(s', s.nextId, r, u);
      }
      if Busy(s', r, u) && !(r == t.root && u == t.cur && u != END) {
        var id :| RunsAt(s', id, r, u);
        assert RunsAt(s, id, r, u);
      }
    }
  }

  /** Same controllers, same pending joints and retrievals. */
  lemma SameProcs(s: State, s': State)
    requires s.procs == s'.procs
    ensures forall r, u, j :: Pend(s', r, u, j) <==> Pend(s, r, u, j)
    ensures forall r, j :: Retr(s', r, j) <==> Retr(s, r, j)
  {
    forall r, u, j ensures Pend(s', r, u, j) <==> Pend(s, r, u, j) {
      assert forall pid :: WaitsIn(s', pid, r, u, j) <==> WaitsIn(s, pid, r, u, j);
    }
    forall r, j ensures Retr(s', r, j) <==> Retr(s, r, j) {
      assert forall pid :: RetrievesAt(s', pid, r, j) <==> RetrievesAt(s, pid, r, j);
    }
  }

  /** Same running tasks, same entries. */
  lemma SameRunning(s: State, s': State)
    requires s.running == s'.running && s.entered == s'.entered
    ensures forall r, u :: Busy(s', r, u) <==> Busy(s, r, u)
    ensures forall r, u :: Ent(s', r, u) <==> Ent(s, r, u)
  {
    forall r, u ensures Busy(s', r, u) <==> Busy(s, r, u) {
      assert forall id :: RunsAt(s', id, r, u) <==> RunsAt(s, id, r, u);
    }
    forall r, u ensures Ent(s', r, u) <==> Ent(s, r, u) {
      assert forall i :: 0 <= i < |s.entered| ==> (IsEntry(s', i, r, u) <==> IsEntry(s, i, r, u));
    }
  }

  /** Submitting to a place never entered before keeps the shape. */
  lemma DispatchShape(c: Config, s: State, t: TaskData, o: Origin)
    requires Inverse(c.next, c.prev) && Shape(c, s)
    requires t.root in s.roots && t.cur in c.next && t.cur != START && !Ent(s, t.root, t.cur)
    requires forall u :: u in c.prev[t.cur] && u != START ==> Ent(s, t.root, u)
    ensures Shape(c, Dispatch(s, t, o))
  {
    DispatchPlaces(c, s, t, o);
    DispatchOnePerSpot(c, s, t, o);
    DispatchEntries(c, s, t, o);
    DispatchDelivered(s, t, o);
  }

  lemma DispatchPlaces(c: Config, s: State, t: TaskData, o: Origin)
    requires RunningOk(c, s) && ProcsOk(c, s) && Ids(s)
    requires t.root in s.roots && t.cur in c.next && t.cur != START
    ensures RunningOk(c, Dispatch(s, t, o)) && ProcsOk(c, Dispatch(s, t, o)) && Ids(Dispatch(s, t, o))
  {
    DispatchRunningOk(c, s, t, o);
    DispatchProcsOk(c, s, t, o);
    DispatchIds(s, t, o);
  }

  lemma DispatchIds(s: State, t: TaskData, o: Origin)
    requires Ids(s)
    ensures Ids(Dispatch(s, t, o))
  {
  }

  lemma DispatchRunningOk(c: Config, s: State, t: TaskData, o: Origin)
    requires RunningOk(c, s) && t.root in s.roots && t.cur in c.next && t.cur != START
    ensures RunningOk(c, Dispatch(s, t, o))
  {
    var s' := Dispatch(s, t, o);
    DispatchEnt(s, t, o);
    forall id | id in s'.running ensures PlaceOk(c, s', s'.running[id]) {
      assert id in s.running ==> PlaceOk(c, s, s.running[id]);
    }
  }

  lemma DispatchProcsOk(c: Config, s: State, t: TaskData, o: Origin)
    requires ProcsOk(c, s)
    ensures ProcsOk(c, Dispatch(s, t, o))
  {
    var s' := Dispatch(s, t, o);
    DispatchEnt(s, t, o);
    forall pid | pid in s'.procs ensures ProcOk(c, s', s'.procs[pid]) {
      assert ProcOk(c, s, s.procs[pid]);
    }
  }

  lemma DispatchOnePerSpot(c: Config, s: State, t: TaskData, o: Origin)
    requires RunningOk(c, s) && ProcsOk(c, s) && OnePerSpot(s) && Ids(s) && !Ent(s, t.root, t.cur)
    ensures OnePerSpot(Dispatch(s, t, o))
  {
    var s' := Dispatch(s, t, o);
    forall i | i in s.running ensures !SameSpot(s.running[i], t) {
      assert PlaceOk(c, s, s.running[i]);
    }
    forall k | k in s.procs ensures !SameSpot(t, s.procs[k].task) {
      assert ProcOk(c, s, s.procs[k]);
    }
    assert s'.procs == s.procs;
    assert forall i, r, j :: RetrievesAt(s', i, r, j) <==> RetrievesAt(s, i, r, j);
  }

  lemma DispatchEntries(c: Config, s: State, t: TaskData, o: Origin)
    requires Inverse(c.next, c.prev) && EntriesOk(c, s)
    requires t.root in s.roots && t.cur in c.next && t.cur != START && !Ent(s, t.root, t.cur)
    requires forall u :: u in c.prev[t.cur] && u != START ==> Ent(s, t.root, u)
    ensures EntriesOk(c, Dispatch(s, t, o))
  {
    var s' := Dispatch(s, t, o);
    assert forall k, r, j :: 0 <= k < |s.entered| ==> (IsEntry(s', k, r, j) <==> IsEntry(s, k, r, j));
    forall i | 0 <= i < |s'.entered| ensures EntryOk(c, s', i) {
      if i < |s.entered| {
        assert EntryOk(c, s, i);
        assert s'.entered[i] == s.entered[i];
        forall u | u in c.prev[s.entered[i].service] && u != START
          ensures exists k :: 0 <= k < i && IsEntry(s', k, s.entered[i].root, u)
        {
          var k :| 0 <= k < i && IsEntry(s, k, s.entered[i].root, u);
          assert IsEntry(s', k, s.entered[i].root, u);
        }
      } else {
        forall u | u in c.prev[t.cur] && u != START ensures exists k :: 0 <= k < i && IsEntry(s', k, t.root, u) {
          var k :| 0 <= k < |s.entered| && IsEntry(s, k, t.root, u);
          assert IsEntry(s', k, t.root, u);
        }
      }
    }
  }

  lemma DispatchDelivered(s: State, t: TaskData, o: Origin)
    requires DeliveredOk(s) && !Ent(s, t.root, t.cur)
    ensures DeliveredOk(Dispatch(s, t, o))
  {
    var s' := Dispatch(s, t, o);
    DispatchEnt(s, t, o);
    forall r | Ent(s', r, END) ensures HasDelivery(s', r) {
      if Ent(s, r, END) {
        assert HasDelivery(s, r);
        var i :| 0 <= i < |s.delivered| && s.delivered[i].root == r;
        assert s'.delivered[i].root == r;
      } else {
        assert s'.delivered[|s.delivered|].root == r;
      }
    }
  }

  // ----- a controller moves on -----

  lemma SuffixTail(a: seq<Name>, b: seq<Name>)
    requires IsSuffix(a, b) && a != [] && Distinct(b)
    ensures IsSuffix(a[1..], b) && forall j :: j in a[1..] <==> j in a && j != a[0]
  {
    forall j ensures j in a[1..] <==> j in a && j != a[0] {
      if j in a && j != a[0] {
        var i :| 0 <= i < |a| && a[i] == j;
        assert a[1..][i - 1] == j;
      }
      if j in a[1..] {
        var i :| 0 <= i < |a[1..]| && a[1..][i] == j;
        assert a[i + 1] == b[|b| - |a| + i + 1] && a[0] == b[|b| - |a|];
      }
    }
  }

  /** A controller that finishes a joint stays where it is. */
  lemma AdvanceShape(c: Config, s: State, pid: Id)
    requires GoodConfig(c) && Shape(c, s) && pid in s.procs && s.procs[pid].todo != []
    ensures Shape(c, Advance(s, pid))
  {
    AdvancePlaces(c, s, pid);
    AdvanceOnePerSpot(s, pid);
    AdvanceKeepsEntries(c, s, Advance(s, pid));
    SameRunning(s, Advance(s, pid));
  }

  lemma AdvancePlaces(c: Config, s: State, pid: Id)
    requires GoodConfig(c) && RunningOk(c, s) && ProcsOk(c, s) && pid in s.procs && s.procs[pid].todo != []
    ensures RunningOk(c, Advance(s, pid)) && ProcsOk(c, Advance(s, pid))
  {
    var s', p := Advance(s, pid), s.procs[pid];
    SameRunning(s, s');
    assert ProcOk(c, s, p);
    SuffixTail(p.todo, c.next[p.task.cur]);
    forall k | k in s'.procs ensures ProcOk(c, s', s'.procs[k]) {
      assert ProcOk(c, s, s.procs[k]);
    }
    forall id | id in s'.running ensures PlaceOk(c, s', s'.running[id]) {
      assert PlaceOk(c, s, s.running[id]);
    }
  }

  lemma AdvanceOnePerSpot(s: State, pid: Id)
    requires OnePerSpot(s) && pid in s.procs && s.procs[pid].todo != []
    ensures OnePerSpot(Advance(s, pid))
  {
    var s' := Advance(s, pid);
    assert forall k, r, j :: RetrievesAt(s', k, r, j) ==> RetrievesAt(s, k, r, j);
  }

  lemma AdvanceKeepsEntries(c: Config, s: State, s': State)
    requires s'.entered == s.entered && s'.roots == s.roots
    requires EntriesOk(c, s)
    ensures EntriesOk(c, s')
  {
    assert forall k, r, j :: 0 <= k < |s.entered| ==> (IsEntry(s', k, r, j) <==> IsEntry(s, k, r, j));
    forall i | 0 <= i < |s'.entered| ensures EntryOk(c, s', i) {
      assert EntryOk(c, s, i);
      forall u | u in c.prev[s.entered[i].service] && u != START
        ensures exists k :: 0 <= k < i && IsEntry(s', k, s.entered[i].root, u)
      {
        var k :| 0 <= k < i && IsEntry(s, k, s.entered[i].root, u);
        assert IsEntry(s', k, s.entered[i].root, u);
      }
    }
  }

  /** Finishing a joint removes it, and only it, from what is pending. */
  lemma AdvancePend(s: State, pid: Id)
    requires pid in s.procs && s.procs[pid].todo != [] && ProcsApart(s)
    requires forall j :: j in s.procs[pid].todo[1..] <==> j in s.procs[pid].todo && j != s.procs[pid].todo[0]
    ensures var p := s.procs[pid];
      forall r, u, j :: Pend(Advance(s, pid), r, u, j) <==>
        Pend(s, r, u, j) && !(r == p.task.root && u == p.task.cur && j == p.todo[0])
  {
    var s', p := Advance(s, pid), s.procs[pid];
    assert |p.todo| == 1 ==> p.todo[1..] == [];
    forall k, r, u, j
      ensures WaitsIn(s', k, r, u, j) <==>
        WaitsIn(s, k, r, u, j) && !(r == p.task.root && u == p.task.cur && j == p.todo[0])
    {
      AdvanceWaits(s, pid, k, r, u, j);
    }
    forall r, u, j
      ensures Pend(s', r, u, j) <==> Pend(s, r, u, j) && !(r == p.task.root && u == p.task.cur && j == p.todo[0])
    {
      if Pend(s', r, u, j) {
        var k :| WaitsIn(s', k, r, u, j);
        assert WaitsIn(s, k, r, u, j);
      }
      if Pend(s, r, u, j) && !(r == p.task.root && u == p.task.cur && j == p.todo[0]) {
        var k :| WaitsIn(s, k, r, u, j);
        assert WaitsIn(s', k, r, u, j);
      }
    }
  }

  lemma AdvanceWaits(s: State, pid: Id, k: Id, r: Id, u: Name, j: Name)
    requires pid in s.procs && s.procs[pid].todo != [] && ProcsApart(s)
    requires forall x :: x in s.procs[pid].todo[1..] <==> x in s.procs[pid].todo && x != s.procs[pid].todo[0]
    ensures var p := s.procs[pid];
      WaitsIn(Advance(s, pid), k, r, u, j) <==>
        WaitsIn(s, k, r, u, j) && !(r == p.task.root && u == p.task.cur && j == p.todo[0])
  {
    var p := s.procs[pid];
    assert |p.todo| == 1 ==> p.todo[1..] == [];
    if k != pid && k in s.procs {
      assert !SameSpot(s.procs[k].task, s.procs[pid].task);
    }
  }

  lemma AdvanceRetr(s: State, pid: Id)
    requires ProcsApart(s) && pid in s.procs && s.procs[pid].todo != []
    ensures var p := s.procs[pid];
      forall r, j :: Retr(Advance(s, pid), r, j) <==>
        Retr(s, r, j) && !(p.retrieving.Some? && r == p.task.root && j == p.retrieving.value.cur)
  {
    var s', p := Advance(s, pid), s.procs[pid];
    forall r, j
      ensures Retr(s', r, j) <==>
        Retr(s, r, j) && !(p.retrieving.Some? && r == p.task.root && j == p.retrieving.value.cur)
    {
      if Retr(s', r, j) {
        var k :| RetrievesAt(s', k, r, j);
        assert RetrievesAt(s, k, r, j);
        assert p.retrieving.Some? && r == p.task.root && j == p.retrieving.value.cur ==> RetrievesAt(s, pid, r, j);
      }
      if Retr(s, r, j) && !(p.retrieving.Some? && r == p.task.root && j == p.retrieving.value.cur) {
        var k :| RetrievesAt(s, k, r, j);
        assert RetrievesAt(s', k, r, j);
      }
    }
  }
}
