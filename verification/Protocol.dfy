/**
 The fork/join protocol as a state machine: tasks forked along the graph by several controllers, stored at
 joints in a shared store, taken out by whoever completes a joint, merged, and sent on. Every label is one
 atomic step; anything may happen between two steps.
 */
module Protocol {
  import opened Graphs
  import opened Wrappers
  import opened Dags
  import opened TaskMerge

  type Id = nat

  /** A task as it travels: where it is, where it came from, and which services' results it holds. */
  datatype TaskData = TaskData(root: Id, uuid: Id, cur: Name, past: Name, held: set<Name>)

  /**
   The graph all tasks of a run carry, and what the common-ancestor search answers on it; no entry means it
   raises.
   */
  datatype Config = Config(next: Graph, prev: Graph, lca: map<(Name, Name), Name>)

  /** A controller working through a returned task: the joints still to serve, and a task about to be retrieved for. */
  datatype Proc = Proc(task: TaskData, todo: seq<Name>, retrieving: Option<TaskData>)

  datatype Origin = FromStart | FromReturn(pasts: set<Name>)

  /** A service was entered, or the end delivered, for a root task. */
  datatype Entry = Entry(root: Id, service: Name, origin: Origin)

  type Store = map<(Id, Name), map<Id, TaskData>>

  datatype State = State(
    roots: set<Id>,
    running: map<Id, TaskData>,
    procs: map<Id, Proc>,
    store: Store,
    delivered: seq<TaskData>,
    entered: seq<Entry>,
    nextId: Id)

  datatype Label =
    | Start(root: Id)                        // the generator submits a new root task
    | Return(id: Id)                         // a service hands its task back
    | Fork(pid: Id)                          // one joint: fork, then store and count, or submit
    | Retrieve(pid: Id, order: seq<Id>)      // take everything stored at a joint, check, merge, submit
    | Lose(id: Id)                           // a task is lost on its way or in its service
    | Duplicate(id: Id)                      // a task is sent or returned twice
    | StoreFails(pid: Id)                    // the store cannot be written
    | RetrieveFails(pid: Id)                 // the store cannot be read
    | Crash(pid: Id)                         // a controller dies while processing
    | Expire(root: Id, joint: Name)          // a stored joint times out

  const INIT := State({}, map[], map[], map[], [], [], 0)

  function Stored(store: Store, key: (Id, Name)): map<Id, TaskData> {
    if key in store then store[key] else map[]
  }

  /** `submit_task` past the start: the end is delivered, anything else goes to its service. */
  ghost function Dispatch(s: State, t: TaskData, origin: Origin): State {
    var logged := s.(entered := s.entered + [Entry(t.root, t.cur, origin)], nextId := s.nextId + 1);
    if t.cur == END then logged.(delivered := s.delivered + [t])
    else logged.(running := s.running[s.nextId := t])
  }

  /** `submit_task` at the start: one fork per child, each submitted without a join. */
  ghost function DispatchAll(s: State, root: Id, children: seq<Name>): State {
    if children == [] then s else
      Dispatch(DispatchAll(s, root, children[..|children| - 1]),
               TaskData(root, s.nextId, children[|children| - 1], START, {START}), FromStart)
  }

  /** The controller is done with its current joint. */
  ghost function Advance(s: State, pid: Id): State
    requires pid in s.procs && s.procs[pid].todo != []
  {
    var p := s.procs[pid];
    if |p.todo| == 1 then s.(procs := s.procs - {pid})
    else s.(procs := s.procs[pid := Proc(p.task, p.todo[1..], None)])
  }

  ghost function Forked(s: State, p: Proc): TaskData
    requires p.todo != []
  {
    TaskData(p.task.root, s.nextId, p.todo[0], p.task.cur, p.task.held)
  }

  /** The store after one more task has been put at a joint. */
  ghost function Put(s: State, t: TaskData): State {
    s.(nextId := s.nextId + 1, store := s.store[(t.root, t.cur) := Stored(s.store, (t.root, t.cur))[t.uuid := t]])
  }

  /** Storing the last task makes its controller the one that retrieves. */
  ghost function Claim(s: State, pid: Id, t: TaskData): State
    requires pid in s.procs
  {
    s.(procs := s.procs[pid := s.procs[pid].(retrieving := Some(t))])
  }

  /** The store after a joint was taken out. */
  ghost function Taken(s: State, key: (Id, Name)): State {
    s.(store := s.store - {key})
  }

  function Pasts(data: map<Id, TaskData>): set<Name> {
    set id | id in data :: data[id].past
  }

  ghost function Curs(data: map<Id, TaskData>): set<Name> {
    set id | id in data :: data[id].cur
  }

  /** What a merge leaves held: the copied services as the other task has them, the rest as before. */
  ghost function MergeHeld(next: Graph, held: set<Name>, other: set<Name>, lca: Name, v: Name): set<Name> {
    (held - MergeSet(next, lca, v)) + (other * MergeSet(next, lca, v))
  }

  /** Merges the retrieved tasks one after the other; a missing common ancestor raises. */
  ghost function MergeAll(c: Config, t: TaskData, data: map<Id, TaskData>, order: seq<Id>): Option<TaskData>
    requires forall id :: id in order ==> id in data
  {
    if order == [] then Some(t) else
      var other := data[order[|order| - 1]];
      match MergeAll(c, t, data, order[..|order| - 1])
      case None => None
      case Some(m) =>
        if (t.past, other.past) !in c.lca then None
        else Some(m.(held := MergeHeld(c.next, m.held, other.held, c.lca[(t.past, other.past)], other.past)))
  }

  ghost predicate Working(s: State, pid: Id) {
    pid in s.procs && s.procs[pid].todo != [] && s.procs[pid].retrieving == None
  }

  ghost predicate Retrieving(s: State, pid: Id) {
    pid in s.procs && s.procs[pid].todo != [] && s.procs[pid].retrieving.Some?
  }

  ghost predicate Enabled(c: Config, s: State, l: Label) {
    match l
    case Start(root) => root !in s.roots && START in c.next
    case Return(id) => id in s.running && s.running[id].cur in c.next
    case Fork(pid) => Working(s, pid) && s.procs[pid].todo[0] in c.prev
    case Retrieve(pid, order) =>
      && Retrieving(s, pid) && s.procs[pid].todo[0] in c.prev
      && Distinct(order)
      && Elements(order) == Stored(s.store, (s.procs[pid].task.root, s.procs[pid].todo[0])).Keys
    case Lose(id) => id in s.running
    case Duplicate(id) => id in s.running
    case StoreFails(pid) => Working(s, pid)
    case RetrieveFails(pid) => Retrieving(s, pid)
    case Crash(pid) => pid in s.procs
    case Expire(root, joint) => (root, joint) in s.store
  }

  ghost function ApplyReturn(c: Config, s: State, id: Id): State
    requires id in s.running && s.running[id].cur in c.next
  {
    var t := s.running[id];
    var done := s.(running := s.running - {id});
    if c.next[t.cur] == [] then done
    else done.(procs := s.procs[s.nextId := Proc(t.(held := t.held + {t.cur}), c.next[t.cur], None)],
      nextId := s.nextId + 1)
  }

  /** Fork one joint: with several predecessors store and count, otherwise submit at once. */
  ghost function ApplyFork(c: Config, s: State, pid: Id): State
    requires Working(s, pid) && s.procs[pid].todo[0] in c.prev
  {
    var t := Forked(s, s.procs[pid]);
    if |c.prev[t.cur]| > 1 then
      if |Put(s, t).store[(t.root, t.cur)]| == |c.prev[t.cur]| then Claim(Put(s, t), pid, t)
        else Advance(Put(s, t), pid)
    else
      Advance(Dispatch(s.(nextId := s.nextId + 1), t, FromReturn({t.past})), pid)
  }

  /** Take all and clear if enough are stored; drop what fails the branch checks; otherwise merge and submit. */
  ghost function ApplyRetrieve(c: Config, s: State, pid: Id, order: seq<Id>): State
    requires Enabled(c, s, Retrieve(pid, order))
  {
    var p := s.procs[pid];
    var key, required := (p.task.root, p.todo[0]), |c.prev[p.todo[0]]|;
    var data := Stored(s.store, key);
    if |data| < required || data == map[] then Advance(s, pid)
    else
      var taken := Taken(s, key);
      if |Pasts(data)| != required || |Curs(data)| != 1 then Advance(taken, pid)
      else
        match MergeAll(c, p.retrieving.value, data, order)
        case None => taken.(procs := s.procs - {pid})
        case Some(m) => Advance(Dispatch(taken, m, FromReturn(Pasts(data))), pid)
  }

  ghost function Apply(c: Config, s: State, l: Label): State
    requires Enabled(c, s, l)
  {
    match l
    case Start(root) => DispatchAll(s.(roots := s.roots + {root}), root, c.next[START])
    case Return(id) => ApplyReturn(c, s, id)
    case Fork(pid) => ApplyFork(c, s, pid)
    case Retrieve(pid, order) => ApplyRetrieve(c, s, pid, order)
    case Lose(id) => s.(running := s.running - {id})
    case Duplicate(id) => s.(running := s.running[s.nextId := s.running[id]], nextId := s.nextId + 1)
    case StoreFails(pid) => Advance(s, pid)
    case RetrieveFails(pid) => Advance(s, pid)
    case Crash(pid) => s.(procs := s.procs - {pid})
    case Expire(root, joint) => Taken(s, (root, joint))
  }

  /** The state a run of labels leads to, if every step was enabled. */
  ghost function Exec(c: Config, ls: seq<Label>): Option<State> {
    if ls == [] then Some(INIT) else
      match Exec(c, ls[..|ls| - 1])
      case None => None
      case Some(s) => if Enabled(c, s, ls[|ls| - 1]) then Some(Apply(c, s, ls[|ls| - 1])) else None
  }

  /** No loss and no duplication. */
  ghost predicate Lossless(l: Label) {
    l.Start? || l.Return? || l.Fork? || l.Retrieve?
  }
}
