/** Exactly-once runs: good graphs give them, and graphs whose predecessor lists are not clean do not. */
module OnceIff {
  import opened Graphs
  import opened Wrappers
  import opened Dags
  import opened Protocol
  import opened JoinSafety
  import opened StartEntry
  import opened RunInvariant
  import opened ExactlyOnce
  import opened LosslessRuns

  /** The run keeps to one entry per service, and with nothing left to do it has delivered for every root task. */
  ghost predicate RunOnce(c: Config, ls: seq<Label>) {
    AllLossless(ls) && Exec(c, ls).Some? ==>
      var s := Exec(c, ls).value;
      AtMostOnce(c, s) && (Quiet(c, s) ==> forall r :: r in s.roots ==> DeliveredOnce(c, s, r))
  }

  ghost predicate EveryRunOnce(c: Config) {
    forall ls {:trigger RunOnce(c, ls)} :: RunOnce(c, ls)
  }

  lemma {:induction false} DispatchAllIds(s: State, root: Id, children: seq<Name>)
    requires Ids(s)
    ensures Ids(DispatchAll(s, root, children))
    decreases |children|
  {
    if children != [] {
      DispatchAllIds(s, root, children[..|children| - 1]);
      DispatchIds(DispatchAll(s, root, children[..|children| - 1]),
                  TaskData(root, s.nextId, children[|children| - 1], START, {START}), FromStart);
    }
  }

  /** Every child entered at the start is at work at once. */
  lemma {:induction false} DispatchAllBusy(s: State, root: Id, children: seq<Name>)
    requires Ids(s)
    ensures forall b :: b in children && b != END ==> Busy(DispatchAll(s, root, children), root, b)
    decreases |children|
  {
    if children != [] {
      var rest, last := children[..|children| - 1], children[|children| - 1];
      DispatchAllIds(s, root, rest);
      DispatchAllBusy(s, root, rest);
      DispatchBusy(DispatchAll(s, root, rest), TaskData(root, s.nextId, last, START, {START}), FromStart);
      assert children == rest + [last];
    }
  }

  /** And nothing else is entered. */
  lemma {:induction false} DispatchAllEntered(s: State, root: Id, children: seq<Name>)
    ensures var s' := DispatchAll(s, root, children);
      |s.entered| <= |s'.entered| && forall i :: |s.entered| <= i < |s'.entered| ==> s'.entered[i].service in children
    decreases |children|
  {
    if children != [] {
      var rest, last := children[..|children| - 1], children[|children| - 1];
      DispatchAllEntered(s, root, rest);
      assert children == rest + [last];
    }
  }

  /** The run that only submits one root task. */
  lemma StartRun(c: Config)
    requires NormalConfig(c)
    ensures AllLossless([Start(0)]) && Exec(c, [Start(0)]) == Some(DispatchAll(INIT.(roots := {0}), 0, c.next[START]))
  {
    assert [Start(0)][..0] == [];
    assert Exec(c, []) == Some(INIT);
    assert INIT.roots + {0} == {0};
  }

  /** Entering `n` from the start, while `a` is at work or not entered, is too early if `a` is a predecessor. */
  lemma TooEarly(c: Config, s: State, r: Id, n: Name, a: Name)
    requires EntersFromStart(s, r, n) && n in c.prev && a in c.prev[n] && a != START
    requires Ent(s, r, a) ==> Busy(s, r, a)
    ensures !AtMostOnce(c, s)
  {
    var k :| 0 <= k < |s.entered| && s.entered[k] == Entry(r, n, FromStart);
    if m :| 0 <= m < k && IsEntry(s, m, r, a) {
      assert Ent(s, r, a);
    }
    assert s.entered[k].service == n && s.entered[k].root == r;
  }

  /** After the first submission whatever has been entered, short of the end, is at work. */
  lemma AtWorkOrNotEntered(children: seq<Name>, a: Name)
    requires a != END
    ensures var s := DispatchAll(INIT.(roots := {0}), 0, children); Ent(s, 0, a) ==> Busy(s, 0, a)
  {
    DispatchAllBusy(INIT.(roots := {0}), 0, children);
    DispatchAllEntered(INIT.(roots := {0}), 0, children);
    var s := DispatchAll(INIT.(roots := {0}), 0, children);
    if Ent(s, 0, a) {
      var m :| 0 <= m < |s.entered| && IsEntry(s, m, 0, a);
      assert s.entered[m].service in children;
    }
  }

  /** A child of the start with a further predecessor is entered before that one has returned. */
  lemma EnteredTooEarly(c: Config, n: Name, a: Name)
    requires NormalConfig(c) && n in c.prev && START in c.prev[n] && a in c.prev[n] && a != START
    ensures !RunOnce(c, [Start(0)])
  {
    assert Edge(c.prev, n, START) && Edge(c.prev, n, a);
    assert Edge(c.next, START, n) && Edge(c.next, a, n);
    StartRun(c);
    AtWorkOrNotEntered(c.next[START], a);
    var i :| 0 <= i < |c.next[START]| && c.next[START][i] == n;
    DispatchAllEnters(INIT.(roots := {0}), 0, c.next[START], i);
    TooEarly(c, Exec(c, [Start(0)]).value, 0, n, a);
  }

  /** A joint that lists a predecessor twice is not entered by the time nothing is left to do. */
  lemma NeverComplete(c: Config, n: Name) returns (ls: seq<Label>)
    requires NormalConfig(c) && n in c.prev && START !in c.prev[n] && !Distinct(c.prev[n])
    ensures !RunOnce(c, ls)
  {
    StartRun(c);
    InverseClosed(c.next, c.prev);
    ls := RunsOut(c, [Start(0)]);
    var s := Exec(c, ls).value;
    JoinSafe(c, ls);
    DispatchAllRoots(INIT.(roots := {0}), 0, c.next[START]);
    assert 0 in s.roots;
    assert !Edge(c.prev, n, START);
    forall i | 0 <= i < |s.entered| ensures !IsEntry(s, i, 0, n) {
      assert EntrySafe(c, s.entered[i]);
    }
    assert n != START && Entries(s, 0, n) == {};
  }

  lemma GoodIsOnce(c: Config)
    requires GoodConfig(c)
    ensures EveryRunOnce(c)
  {
    forall ls ensures RunOnce(c, ls) {
      if AllLossless(ls) && Exec(c, ls).Some? {
        EnteredAtMostOnce(c, ls);
        if Quiet(c, Exec(c, ls).value) {
          forall r | r in Exec(c, ls).value.roots ensures DeliveredOnce(c, Exec(c, ls).value, r) {
            QuietMeansDelivered(c, ls, r);
          }
        }
      }
    }
  }

  lemma NotOnce(c: Config, n: Name)
    requires NormalConfig(c) && n in c.next && !CleanPrev(c, n)
    ensures !EveryRunOnce(c)
  {
    if START in c.prev[n] {
      var a :| a in Elements(c.prev[n]) && a != START;
      EnteredTooEarly(c, n, a);
    } else {
      var ls := NeverComplete(c, n);
    }
  }

  /** Any loss-free run on such a graph can be brought to deliver every root task submitted so far. */
  lemma EveryRunCanDeliver(c: Config, ls: seq<Label>) returns (all: seq<Label>)
    requires GoodConfig(c) && AllLossless(ls) && Exec(c, ls).Some?
    ensures ls <= all && AllLossless(all) && Exec(c, all).Some?
    ensures forall r :: r in Exec(c, ls).value.roots ==> DeliveredOnce(c, Exec(c, all).value, r)
  {
    InverseClosed(c.next, c.prev);
    all := RunsOut(c, ls);
    forall r | r in Exec(c, ls).value.roots ensures DeliveredOnce(c, Exec(c, all).value, r) {
      QuietMeansDelivered(c, all, r);
    }
  }
}
