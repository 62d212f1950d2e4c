/** The distributor's result records: inserted, pruned to the newest, and polled with a time ticket. */
module Polling {
  import opened Graphs
  import opened Sorting

  datatype Record = Record(source: int, task: int, ctime: real, json: string)

  /** How many records pruning keeps, none meaning all, and after how many writes it happens. */
  datatype Retention = Retention(records: nat, interval: nat)

  /** The table in the order of insertion, and the writes since it was last pruned. */
  datatype Table = Table(records: seq<Record>, writes: nat)

  // ----- inserting and pruning -----

  predicate SameKey(a: Record, b: Record) {
    a.source == b.source && a.task == b.task
  }

  predicate Conflict(records: seq<Record>, r: Record) {
    exists i :: 0 <= i < |records| && SameKey(records[i], r)
  }

  ghost predicate UniqueKeys(records: seq<Record>) {
    forall i, j :: 0 <= i < j < |records| ==> !SameKey(records[i], records[j])
  }

  lemma SnocMoves(a: seq<Record>, front: seq<Record>, last: Record, b: seq<Record>)
    requires b != [] && front == b[..|b| - 1] && last == b[|b| - 1]
    ensures front + [last] == b && a + front + [last] == a + b && [] + [last] == [last]
  {
  }

  lemma ConcatAssociates(a: seq<Record>, b: seq<Record>, c: seq<Record>)
    ensures a + b + c == a + (b + c) && [] + c == c
  {
  }

  /** The order records are pruned in: by time, then by source, then by task. */
  predicate Newer(a: Record, b: Record) {
    || a.ctime > b.ctime
    || (a.ctime == b.ctime && a.source > b.source)
    || (a.ctime == b.ctime && a.source == b.source && a.task > b.task)
  }

  ghost predicate NewestFirst(s: seq<Record>) {
    forall i, j :: 0 <= i < j < |s| ==> !Newer(s[j], s[i])
  }

  function ByNewest(s: seq<Record>): (r: seq<Record>)
    ensures |r| == |s| && Elements(r) == Elements(s) && NewestFirst(r)
  {
    if s == [] then [] else
      assert Elements(s) == Elements(s[1..]) + {s[0]};
      InsertByNewest(s[0], ByNewest(s[1..]))
  }

  function InsertByNewest(x: Record, s: seq<Record>): (r: seq<Record>)
    requires NewestFirst(s)
    ensures |r| == |s| + 1 && Elements(r) == Elements(s) + {x} && NewestFirst(r)
  {
    if s == [] || !Newer(s[0], x) then [x] + s
    else
      var rest := InsertByNewest(x, s[1..]);
      NewestInFront(x, s, rest);
      assert Elements(s) == Elements(s[1..]) + {s[0]};
      assert Elements([s[0]] + rest) == Elements(rest) + {s[0]};
      [s[0]] + rest
  }

  lemma NewestInFront(x: Record, s: seq<Record>, rest: seq<Record>)
    requires s != [] && NewestFirst(s) && NewestFirst(rest) && Newer(s[0], x)
    requires Elements(rest) == Elements(s[1..]) + {x}
    ensures NewestFirst([s[0]] + rest)
  {
    forall j | 0 <= j < |rest| ensures !Newer(rest[j], s[0]) {
      assert rest[j] in Elements(rest);
      if rest[j] != x {
        var k :| 0 <= k < |s[1..]| && s[1..][k] == rest[j];
        assert s[k + 1] == rest[j];
      }
    }
  }

  /** The records but those listed, in their order. */
  function Excluding(s: seq<Record>, gone: seq<Record>): (r: seq<Record>)
    ensures forall x :: x in r <==> x in s && x !in gone
  {
    if s == [] then []
    else
      assert s == s[..|s| - 1] + [s[|s| - 1]];
      Excluding(s[..|s| - 1], gone) + if s[|s| - 1] in gone then [] else [s[|s| - 1]]
  }

  /** Everything beyond the `n` newest goes. */
  function Pruned(s: seq<Record>, n: nat): seq<Record> {
    var ranked := ByNewest(s);
    if n < |ranked| then Excluding(s, ranked[n..]) else s
  }

  ghost function Inserted(c: Retention, t: Table, r: Record, pruneWorks: bool): Table {
    if Conflict(t.records, r) then t
    else
      var grown := Table(t.records + [r], t.writes + 1);
      if c.records != 0 && grown.writes >= c.interval then
        Table(if pruneWorks then Pruned(grown.records, c.records) else grown.records, 0)
      else grown
  }

  lemma {:induction false} ExcludingKeepsUnique(s: seq<Record>, gone: seq<Record>)
    requires UniqueKeys(s)
    ensures UniqueKeys(Excluding(s, gone))
  {
    if s != [] {
      ExcludingKeepsUnique(s[..|s| - 1], gone);
      var before, last := Excluding(s[..|s| - 1], gone), s[|s| - 1];
      forall i | 0 <= i < |before| ensures !SameKey(before[i], last) {
        assert before[i] in s[..|s| - 1];
        var k :| 0 <= k < |s| - 1 && s[k] == before[i];
      }
    }
  }

  lemma InsertedKeepsUnique(c: Retention, t: Table, r: Record, pruneWorks: bool)
    requires UniqueKeys(t.records)
    ensures UniqueKeys(Inserted(c, t, r, pruneWorks).records)
    ensures forall x :: x in Inserted(c, t, r, pruneWorks).records ==> x in t.records || x == r
  {
    if !Conflict(t.records, r) {
      var grown := t.records + [r];
      assert UniqueKeys(grown);
      var ranked := ByNewest(grown);
      if c.records < |ranked| {
        ExcludingKeepsUnique(grown, ranked[c.records..]);
      }
    }
  }

  ghost predicate Later(kept: Record, gone: Record) {
    if kept.ctime != gone.ctime then kept.ctime > gone.ctime
    else if kept.source != gone.source then kept.source > gone.source
    else kept.task > gone.task
  }

  /** As many of the records as possible up to `n`, all of them later, at equal times of greater keys, than the rest. */
  ghost predicate KeepsNewest(before: seq<Record>, n: nat, after: seq<Record>) {
    && |after| == (if n < |before| then n else |before|)
    && (forall kept :: kept in after ==> kept in before)
    && forall kept, gone :: kept in after && gone in before && gone !in after ==> Later(kept, gone)
  }

  lemma ExcludingSnoc(s: seq<Record>, x: Record, gone: seq<Record>)
    ensures Excluding(s + [x], gone) == Excluding(s, gone) + if x in gone then [] else [x]
  {
    assert (s + [x])[..|s|] == s;
  }

  /** Records are dropped one by one; the rest stays in order. */
  lemma {:induction false} ExcludingSplit(a: seq<Record>, b: seq<Record>, gone: seq<Record>)
    ensures Excluding(a + b, gone) == Excluding(a, gone) + Excluding(b, gone)
    decreases |b|
  {
    if b == [] {
      assert a + b == a;
    } else {
      var front, last := b[..|b| - 1], b[|b| - 1];
      ExcludingSplit(a, front, gone);
      ExcludingSnoc(a + front, last, gone);
      ExcludingSnoc(front, last, gone);
      SnocMoves(a, front, last, b);
      ConcatAssociates(Excluding(a, gone), Excluding(front, gone), Excluding([last], gone));
      ExcludingSnoc([], last, gone);
    }
  }

  /** Pruning keeps exactly the `n` newest. */
  lemma PrunedKeepsNewest(s: seq<Record>, n: nat)
    requires UniqueKeys(s)
    ensures KeepsNewest(s, n, Pruned(s, n))
  {
    PrunedByNewer(s, n);
    forall kept, gone | kept in Pruned(s, n) && gone in s && gone !in Pruned(s, n) ensures Later(kept, gone) {
      assert Newer(kept, gone);
    }
  }

  lemma PrunedByNewer(s: seq<Record>, n: nat)
    requires UniqueKeys(s)
    ensures |Pruned(s, n)| == if n < |s| then n else |s|
    ensures forall kept, gone :: kept in Pruned(s, n) && gone in s && gone !in Pruned(s, n) ==> Newer(kept, gone)
  {
    var ranked := ByNewest(s);
    if n < |s| {
      var kept := Excluding(s, ranked[n..]);
      UniqueIsDistinct(s);
      ElementsSize(s);
      ElementsSize(ranked);
      ExcludingKeepsUnique(s, ranked[n..]);
      UniqueIsDistinct(kept);
      ElementsSize(kept);
      KeptAreFirst(s, ranked, n);
      forall x, y | x in kept && y in s && y !in kept ensures Newer(x, y) {
        assert x in Elements(ranked[..n]) && y in ranked[n..];
        RankedApart(ranked, n, x, y);
        InSameTable(s, x, y);
      }
    }
  }

  lemma RankedApart(ranked: seq<Record>, n: nat, x: Record, y: Record)
    requires NewestFirst(ranked) && n <= |ranked| && x in ranked[..n] && y in ranked[n..]
    ensures !Newer(y, x)
  {
    var i :| 0 <= i < n && ranked[..n][i] == x;
    var j :| 0 <= j < |ranked| - n && ranked[n..][j] == y;
    assert ranked[i] == x && ranked[n + j] == y;
  }

  lemma UniqueIsDistinct(s: seq<Record>)
    requires UniqueKeys(s)
    ensures Distinct(s)
  {
  }

  lemma InSameTable(s: seq<Record>, x: Record, y: Record)
    requires UniqueKeys(s) && x in s && y in s && x != y && !Newer(y, x)
    ensures Newer(x, y)
  {
    var i :| 0 <= i < |s| && s[i] == x;
    var j :| 0 <= j < |s| && s[j] == y;
    assert !SameKey(x, y);
  }

  lemma KeptAreFirst(s: seq<Record>, ranked: seq<Record>, n: nat)
    requires Elements(ranked) == Elements(s) && Distinct(ranked) && n < |ranked|
    ensures Elements(Excluding(s, ranked[n..])) == Elements(ranked[..n]) && |Elements(ranked[..n])| == n
  {
    ElementsSize(ranked[..n]);
    assert ranked == ranked[..n] + ranked[n..];
    forall x ensures x in Excluding(s, ranked[n..]) <==> x in ranked[..n] {
      assert x in s <==> x in Elements(s);
      assert x in ranked <==> x in Elements(ranked);
      assert x in ranked <==> x in ranked[..n] || x in ranked[n..];
      HalvesApart(ranked, n, x);
    }
  }

  lemma HalvesApart(s: seq<Record>, n: nat, x: Record)
    requires Distinct(s) && n <= |s|
    ensures x in s[..n] ==> x !in s[n..]
  {
    if x in s[..n] {
      var i :| 0 <= i < n && s[..n][i] == x;
      forall j | 0 <= j < |s| - n ensures s[n..][j] != x {
        assert s[n..][j] == s[n + j] && s[i] == x;
      }
    }
  }

  // ----- polling -----

  function Pending(s: seq<Record>, ticket: real): (r: seq<Record>)
    ensures forall x :: x in r <==> x in s && x.ctime > ticket
  {
    if s == [] then []
    else
      assert s == s[..|s| - 1] + [s[|s| - 1]];
      Pending(s[..|s| - 1], ticket) + if s[|s| - 1].ctime > ticket then [s[|s| - 1]] else []
  }

  lemma PendingSnoc(s: seq<Record>, x: Record, ticket: real)
    ensures Pending(s + [x], ticket) == Pending(s, ticket) + if x.ctime > ticket then [x] else []
  {
    assert (s + [x])[..|s|] == s;
  }

  /** Pending records are picked one by one, in order. */
  lemma {:induction false} PendingSplit(a: seq<Record>, b: seq<Record>, ticket: real)
    ensures Pending(a + b, ticket) == Pending(a, ticket) + Pending(b, ticket)
    decreases |b|
  {
    if b == [] {
      assert a + b == a;
    } else {
      var front, last := b[..|b| - 1], b[|b| - 1];
      PendingSplit(a, front, ticket);
      PendingSnoc(a + front, last, ticket);
      PendingSnoc(front, last, ticket);
      SnocMoves(a, front, last, b);
      ConcatAssociates(Pending(a, ticket), Pending(front, ticket), Pending([last], ticket));
      PendingSnoc([], last, ticket);
    }
  }

  function ByTime(s: seq<Record>): seq<Record> {
    Sorted((r: Record) => r.ctime, s)
  }

  function LastOf(s: seq<Record>, size: int): seq<Record> {
    if 0 < size < |s| then s[|s| - size..] else s
  }

  /** The pending records by time; with a size, only that many of the newest. */
  ghost function Rows(s: seq<Record>, ticket: real, size: int): seq<Record> {
    LastOf(ByTime(Pending(s, ticket)), size)
  }

  ghost function NextTicket(rows: seq<Record>, ticket: real): real {
    if rows == [] then ticket else rows[|rows| - 1].ctime
  }

  ghost predicate InOrder(rows: seq<Record>) {
    forall i, j :: 0 <= i < j < |rows| ==> rows[i].ctime <= rows[j].ctime
  }

  lemma {:induction false} PendingDistinct(s: seq<Record>, ticket: real)
    requires Distinct(s)
    ensures Distinct(Pending(s, ticket))
  {
    if s != [] {
      PendingDistinct(s[..|s| - 1], ticket);
      assert s[|s| - 1] !in s[..|s| - 1];
    }
  }

  lemma ByTimeFacts(s: seq<Record>)
    requires Distinct(s)
    ensures Distinct(ByTime(s)) && InOrder(ByTime(s)) && |ByTime(s)| == |s|
    ensures forall x :: x in ByTime(s) <==> x in s
  {
    var all := ByTime(s);
    assert forall x :: x in all <==> x in Elements(all);
    assert forall x :: x in s <==> x in Elements(s);
  }

  lemma LastOfFacts(s: seq<Record>, size: int)
    requires Distinct(s) && InOrder(s)
    ensures var r := LastOf(s, size);
            && Distinct(r) && InOrder(r) && (forall x :: x in r ==> x in s) && (r == [] <==> s == [])
            && (size <= 0 ==> r == s)
            && (s != [] ==> r[|r| - 1] == s[|s| - 1] && forall x :: x in s ==> x.ctime <= s[|s| - 1].ctime)
  {
    forall x | x in s && s != [] ensures x.ctime <= s[|s| - 1].ctime {
      var i :| 0 <= i < |s| && s[i] == x;
      assert i < |s| - 1 || i == |s| - 1;
    }
  }

  /** A poll returns pending records, once each and in order, and its ticket is the latest pending time. */
  lemma PollFacts(s: seq<Record>, ticket: real, size: int)
    requires UniqueKeys(s)
    ensures var rows := Rows(s, ticket, size);
            && Distinct(rows) && InOrder(rows)
            && (forall x :: x in rows ==> x in s && x.ctime > ticket)
            && (size <= 0 ==> forall x :: x in s && x.ctime > ticket ==> x in rows)
            && (forall x :: x in s && x.ctime > ticket ==> x.ctime <= NextTicket(rows, ticket))
            && ticket <= NextTicket(rows, ticket)
  {
    UniqueIsDistinct(s);
    var pending := Pending(s, ticket);
    PendingDistinct(s, ticket);
    ByTimeFacts(pending);
    LastOfFacts(ByTime(pending), size);
    if pending != [] {
      assert pending[0] in pending;
    }
  }

  /** As many of the pending records as asked for, all if no size is given, the latest ones and in order. */
  ghost predicate Latest(s: seq<Record>, ticket: real, size: int, rows: seq<Record>) {
    var pending := set x | x in s && x.ctime > ticket;
    && Distinct(rows) && InOrder(rows)
    && (forall x :: x in rows ==> x in pending)
    && |rows| == (if 0 < size < |pending| then size else |pending|)
    && forall x, y :: x in pending && x !in rows && y in rows ==> x.ctime <= y.ctime
  }

  lemma RowsAreLatest(s: seq<Record>, ticket: real, size: int)
    requires UniqueKeys(s)
    ensures Latest(s, ticket, size, Rows(s, ticket, size))
  {
    UniqueIsDistinct(s);
    var pending := Pending(s, ticket);
    PendingDistinct(s, ticket);
    ByTimeFacts(pending);
    LastOfFacts(ByTime(pending), size);
    ElementsSize(pending);
    assert Elements(pending) == set x | x in s && x.ctime > ticket;
    LeftOutEarlier(ByTime(pending), size);
  }

  lemma LeftOutEarlier(s: seq<Record>, size: int)
    requires InOrder(s)
    ensures forall x, y :: x in s && x !in LastOf(s, size) && y in LastOf(s, size) ==> x.ctime <= y.ctime
    ensures |LastOf(s, size)| == if 0 < size < |s| then size else |s|
  {
    var last := LastOf(s, size);
    forall x, y | x in s && x !in last && y in last ensures x.ctime <= y.ctime {
      var k := |s| - |last|;
      assert forall h :: k <= h < |s| ==> s[h] == last[h - k];
      var i :| 0 <= i < |s| && s[i] == x;
      var j :| 0 <= j < |last| && last[j] == y;
      assert last[j] == s[k + j];
    }
  }

  /** A poll of this size leaves out nothing pending. */
  ghost predicate LargeEnough(s: seq<Record>, ticket: real, size: int) {
    size <= 0 || |Pending(s, ticket)| <= size
  }

  /** A poll returns everything pending exactly if it is unlimited or no more is pending than its size. */
  lemma AllReturnedIff(s: seq<Record>, ticket: real, size: int)
    requires UniqueKeys(s)
    ensures (forall x :: x in s && x.ctime > ticket ==> x in Rows(s, ticket, size)) <==> LargeEnough(s, ticket, size)
  {
    UniqueIsDistinct(s);
    var pending, rows := Pending(s, ticket), Rows(s, ticket, size);
    PendingDistinct(s, ticket);
    ByTimeFacts(pending);
    if LargeEnough(s, ticket, size) {
      assert rows == ByTime(pending);
    } else {
      ElementsSize(pending);
      ElementsSize(rows);
      if Elements(pending) <= Elements(rows) {
        SubsetSize(Elements(pending), Elements(rows));
      }
      var x :| x in Elements(pending) && x !in Elements(rows);
      assert x in pending && x !in rows;
    }
  }

  class Distributor {
    const retention: Retention
    var records: seq<Record>
    var writesSincePrune: nat

    ghost predicate Valid()
      reads this
    {
      UniqueKeys(records)
    }

    ghost function Contents(): Table
      reads this
    {
      Table(records, writesSincePrune)
    }

    constructor (retention: Retention)
      ensures Valid() && Contents() == Table([], 0) && this.retention == retention
    {
      this.retention := retention;
      records, writesSincePrune := [], 0;
    }

    method SaveTaskRecord(r: Record, pruneWorks: bool)
      requires Valid()
      modifies this
      ensures Valid() && Contents() == Inserted(retention, old(Contents()), r, pruneWorks)
      ensures (exists i :: 0 <= i < |old(records)| && old(records)[i].source == r.source
                                                   && old(records)[i].task == r.task) ==>
        records == old(records) && writesSincePrune == old(writesSincePrune)
      ensures (forall i :: 0 <= i < |old(records)| ==> old(records)[i].source != r.source
                                                       || old(records)[i].task != r.task) ==>
        var writes := old(writesSincePrune) + 1;
        if retention.records == 0 || writes < retention.interval then
          records == old(records) + [r] && writesSincePrune == writes
        else
          && writesSincePrune == 0
          && (!pruneWorks ==> records == old(records) + [r])
          && (pruneWorks ==> KeepsNewest(old(records) + [r], retention.records, records))
    {
      InsertedKeepsUnique(retention, Contents(), r, pruneWorks);
      if Conflict(records, r) {
        return;
      }
      records := records + [r];
      writesSincePrune := writesSincePrune + 1;
      if retention.records != 0 && writesSincePrune >= retention.interval {
        if pruneWorks {
          assert UniqueKeys(records);
          PrunedKeepsNewest(records, retention.records);
          records := Pruned(records, retention.records);
        }
        writesSincePrune := 0;
      }
    }

    /** The incremental query: what is pending, and the ticket for the next one. */
    method QueryResult(ticket: real, size: int) returns (rows: seq<Record>, newTicket: real)
      requires Valid()
      ensures rows == Rows(records, ticket, size) && newTicket == NextTicket(rows, ticket)
      ensures newTicket == if rows == [] then ticket else rows[|rows| - 1].ctime
    {
      rows := ByTime(Pending(records, ticket));
      if size > 0 {
        rows := LastOf(rows, size);
      }
      if rows == [] {
        return rows, ticket;
      }
      newTicket := rows[|rows| - 1].ctime;
    }
  }

  // ----- runs: inserts and polls, every ticket fed into the next poll -----

  datatype Op = Insert(record: Record, pruneWorks: bool) | Poll(size: int)

  datatype Run = Run(table: Table, ticket: real, returned: seq<Record>)

  ghost function Apply(c: Retention, s: Run, op: Op): Run {
    match op
    case Insert(r, pruneWorks) => s.(table := Inserted(c, s.table, r, pruneWorks))
    case Poll(size) =>
      var rows := Rows(s.table.records, s.ticket, size);
      s.(ticket := NextTicket(rows, s.ticket), returned := s.returned + rows)
  }

  ghost function Exec(c: Retention, ticket: real, ops: seq<Op>): Run {
    if ops == [] then Run(Table([], 0), ticket, []) else Apply(c, Exec(c, ticket, ops[..|ops| - 1]), ops[|ops| - 1])
  }

  ghost predicate Sound(s: Run) {
    UniqueKeys(s.table.records) && Distinct(s.returned) && forall x :: x in s.returned ==> x.ctime <= s.ticket
  }

  lemma ApplySound(c: Retention, s: Run, op: Op)
    requires Sound(s)
    ensures Sound(Apply(c, s, op)) && s.ticket <= Apply(c, s, op).ticket && s.returned <= Apply(c, s, op).returned
  {
    match op
    case Insert(r, pruneWorks) => InsertedKeepsUnique(c, s.table, r, pruneWorks);
    case Poll(size) =>
      PollFacts(s.table.records, s.ticket, size);
      var rows := Rows(s.table.records, s.ticket, size);
      forall x | x in rows ensures x !in s.returned {
        assert s.ticket < x.ctime;
      }
      JoinDistinct(s.returned, rows);
  }

  lemma JoinDistinct(a: seq<Record>, b: seq<Record>)
    requires Distinct(a) && Distinct(b) && forall x :: x in b ==> x !in a
    ensures Distinct(a + b)
  {
    forall i, j | 0 <= i < j < |a + b| ensures (a + b)[i] != (a + b)[j] {
      if i < |a| <= j {
        assert (a + b)[j] in b && (a + b)[i] in a;
      }
    }
  }

  /**
   Over any run tickets never decrease and no record is returned twice, whatever the clock, the sizes and the
   pruning do.
   */
  lemma {:induction false} NothingTwice(c: Retention, ticket: real, ops: seq<Op>, n: nat)
    requires n <= |ops|
    ensures Sound(Exec(c, ticket, ops))
    ensures Exec(c, ticket, ops[..n]).ticket <= Exec(c, ticket, ops).ticket
    ensures Exec(c, ticket, ops[..n]).returned <= Exec(c, ticket, ops).returned
    decreases |ops|
  {
    if n < |ops| {
      var rest := ops[..|ops| - 1];
      NothingTwice(c, ticket, rest, n);
      assert rest[..n] == ops[..n];
      ApplySound(c, Exec(c, ticket, rest), ops[|ops| - 1]);
    } else {
      assert ops[..n] == ops;
      if ops != [] {
        NothingTwice(c, ticket, ops[..n - 1], n - 1);
        ApplySound(c, Exec(c, ticket, ops[..n - 1]), ops[n - 1]);
      }
    }
  }

  // ----- polls under a strictly advancing clock -----

  /** Every insert is later than `ticket` and than all inserts before it. */
  ghost predicate Advancing(ops: seq<Op>, ticket: real) {
    && (forall i :: 0 <= i < |ops| && ops[i].Insert? ==> ops[i].record.ctime > ticket)
    && (forall i, j :: 0 <= i < j < |ops| && ops[i].Insert? && ops[j].Insert? ==>
         ops[i].record.ctime < ops[j].record.ctime)
  }

  /** The poll at `i` leaves out nothing pending when it is made. */
  ghost predicate EnoughAt(c: Retention, ticket: real, ops: seq<Op>, i: nat)
    requires i < |ops|
  {
    var s := Exec(c, ticket, ops[..i]);
    ops[i].Poll? ==> LargeEnough(s.table.records, s.ticket, ops[i].size)
  }

  ghost predicate EnoughThroughout(c: Retention, ticket: real, ops: seq<Op>) {
    forall i {:trigger EnoughAt(c, ticket, ops, i)} :: 0 <= i < |ops| ==> EnoughAt(c, ticket, ops, i)
  }

  ghost predicate InsertedIn(ops: seq<Op>, r: Record) {
    exists i :: 0 <= i < |ops| && ops[i].Insert? && ops[i].record == r
  }

  ghost predicate StrictOrder(s: seq<Record>) {
    forall i, j :: 0 <= i < j < |s| ==> s[i].ctime < s[j].ctime
  }

  ghost predicate AllInserted(ops: seq<Op>, s: Run) {
    forall x {:trigger InsertedIn(ops, x)} :: x in s.table.records || x in s.returned ==> InsertedIn(ops, x)
  }

  /** Whatever is in the table is still to come or was returned. */
  ghost predicate NoneMissed(s: Run) {
    forall x :: x in s.table.records && x.ctime <= s.ticket ==> x in s.returned
  }

  ghost predicate TicketReturned(ticket: real, s: Run) {
    s.ticket == ticket || exists x :: x in s.returned && x.ctime == s.ticket
  }

  ghost predicate Complete(ops: seq<Op>, ticket: real, s: Run) {
    AllInserted(ops, s) && NoneMissed(s) && StrictOrder(s.returned) && TicketReturned(ticket, s)
  }

  lemma {:induction false} RunComplete(c: Retention, ticket: real, ops: seq<Op>)
    requires Advancing(ops, ticket) && EnoughThroughout(c, ticket, ops)
    ensures Complete(ops, ticket, Exec(c, ticket, ops))
  {
    if ops == [] {
      NothingYet(ticket);
    } else {
      var rest := ops[..|ops| - 1];
      EnoughBefore(c, ticket, ops, |rest|);
      LastIsEnough(c, ticket, ops);
      AdvancingBefore(ops, ticket);
      RunComplete(c, ticket, rest);
      NothingTwice(c, ticket, rest, 0);
      StepComplete(c, ticket, ops, Exec(c, ticket, rest));
    }
  }

  lemma NothingYet(ticket: real)
    ensures Complete([], ticket, Run(Table([], 0), ticket, []))
  {
  }

  lemma StepComplete(c: Retention, ticket: real, ops: seq<Op>, s: Run)
    requires ops != [] && Advancing(ops, ticket) && Sound(s) && Complete(ops[..|ops| - 1], ticket, s)
    requires ops[|ops| - 1].Poll? ==> LargeEnough(s.table.records, s.ticket, ops[|ops| - 1].size)
    ensures Complete(ops, ticket, Apply(c, s, ops[|ops| - 1]))
  {
    if ops[|ops| - 1].Insert? {
      InsertComplete(c, ticket, ops, s);
    } else {
      PollComplete(c, ticket, ops, s);
    }
  }

  lemma AdvancingBefore(ops: seq<Op>, ticket: real)
    requires Advancing(ops, ticket) && ops != []
    ensures Advancing(ops[..|ops| - 1], ticket)
  {
  }

  lemma LastIsEnough(c: Retention, ticket: real, ops: seq<Op>)
    requires EnoughThroughout(c, ticket, ops) && ops != []
    ensures var s := Exec(c, ticket, ops[..|ops| - 1]);
      ops[|ops| - 1].Poll? ==> LargeEnough(s.table.records, s.ticket, ops[|ops| - 1].size)
  {
    assert EnoughAt(c, ticket, ops, |ops| - 1);
  }

  lemma EnoughBefore(c: Retention, ticket: real, ops: seq<Op>, n: nat)
    requires EnoughThroughout(c, ticket, ops) && n <= |ops|
    ensures EnoughThroughout(c, ticket, ops[..n])
  {
    forall i | 0 <= i < n ensures EnoughAt(c, ticket, ops[..n], i) {
      assert ops[..n][..i] == ops[..i];
      assert EnoughAt(c, ticket, ops, i);
    }
  }

  lemma InsertComplete(c: Retention, ticket: real, ops: seq<Op>, s: Run)
    requires ops != [] && ops[|ops| - 1].Insert? && Advancing(ops, ticket)
    requires Sound(s) && Complete(ops[..|ops| - 1], ticket, s)
    ensures Complete(ops, ticket, Apply(c, s, ops[|ops| - 1]))
  {
    var rest, op := ops[..|ops| - 1], ops[|ops| - 1];
    var t := Apply(c, s, op);
    InsertedKeepsUnique(c, s.table, op.record, op.pruneWorks);
    forall x | x in t.table.records || x in t.returned ensures InsertedIn(ops, x) {
      if x == op.record {
        assert ops[|ops| - 1].record == x;
      } else {
        assert InsertedIn(rest, x);
        StillInserted(ops, x);
      }
    }
    assert op.record.ctime > s.ticket by {
      if s.ticket != ticket {
        var x :| x in s.returned && x.ctime == s.ticket;
        assert InsertedIn(rest, x);
        var i :| 0 <= i < |rest| && rest[i].Insert? && rest[i].record == x;
        assert ops[i] == rest[i];
      }
    }
  }

  lemma StillInserted(ops: seq<Op>, x: Record)
    requires ops != [] && InsertedIn(ops[..|ops| - 1], x)
    ensures InsertedIn(ops, x)
  {
    var rest := ops[..|ops| - 1];
    var i :| 0 <= i < |rest| && rest[i].Insert? && rest[i].record == x;
    assert ops[i] == rest[i];
  }

  /** Two different records were inserted at different times. */
  lemma TimesDiffer(ops: seq<Op>, ticket: real, x: Record, y: Record)
    requires Advancing(ops, ticket) && InsertedIn(ops, x) && InsertedIn(ops, y) && x != y
    ensures x.ctime != y.ctime
  {
    var i :| 0 <= i < |ops| && ops[i].Insert? && ops[i].record == x;
    var j :| 0 <= j < |ops| && ops[j].Insert? && ops[j].record == y;
    assert i < j || j < i;
  }

  lemma PollComplete(c: Retention, ticket: real, ops: seq<Op>, s: Run)
    requires ops != [] && ops[|ops| - 1].Poll? && Advancing(ops, ticket)
    requires Sound(s) && Complete(ops[..|ops| - 1], ticket, s) &&
      LargeEnough(s.table.records, s.ticket, ops[|ops| - 1].size)
    ensures Complete(ops, ticket, Apply(c, s, ops[|ops| - 1]))
  {
    var size := ops[|ops| - 1].size;
    PollMissesNone(c, s, size);
    PolledInserted(c, ops, s, size);
    PolledInOrder(c, ops, ticket, s, size);
  }

  lemma PollMissesNone(c: Retention, s: Run, size: int)
    requires Sound(s) && NoneMissed(s) && LargeEnough(s.table.records, s.ticket, size)
    ensures NoneMissed(Apply(c, s, Poll(size)))
  {
    PollFacts(s.table.records, s.ticket, size);
    AllReturnedIff(s.table.records, s.ticket, size);
  }

  lemma PolledInserted(c: Retention, ops: seq<Op>, s: Run, size: int)
    requires Sound(s) && ops != [] && AllInserted(ops[..|ops| - 1], s)
    ensures AllInserted(ops, Apply(c, s, Poll(size)))
  {
    PollFacts(s.table.records, s.ticket, size);
    var t := Apply(c, s, Poll(size));
    forall x | x in t.table.records || x in t.returned ensures InsertedIn(ops, x) {
      assert InsertedIn(ops[..|ops| - 1], x);
      StillInserted(ops, x);
    }
  }

  lemma PolledInOrder(c: Retention, ops: seq<Op>, ticket: real, s: Run, size: int)
    requires Advancing(ops, ticket) && Sound(s) && StrictOrder(s.returned) && TicketReturned(ticket, s)
    requires AllInserted(ops, Apply(c, s, Poll(size)))
    ensures StrictOrder(Apply(c, s, Poll(size)).returned) && TicketReturned(ticket, Apply(c, s, Poll(size)))
  {
    var rows := Rows(s.table.records, s.ticket, size);
    PollFacts(s.table.records, s.ticket, size);
    StrictlyAfter(ops, ticket, s.returned, rows, s.ticket);
    assert rows != [] ==> rows[|rows| - 1] in s.returned + rows;
  }

  lemma StrictlyAfter(ops: seq<Op>, ticket: real, returned: seq<Record>, rows: seq<Record>, last: real)
    requires Advancing(ops, ticket) && StrictOrder(returned) && InOrder(rows) && Distinct(rows)
    requires forall x :: x in returned ==> x.ctime <= last
    requires forall x :: x in rows ==> last < x.ctime && InsertedIn(ops, x)
    ensures StrictOrder(returned + rows)
  {
    var all := returned + rows;
    forall i, j | 0 <= i < j < |all| ensures all[i].ctime < all[j].ctime {
      if j < |returned| {
        assert all[i] == returned[i] && all[j] == returned[j];
      } else if i < |returned| {
        assert all[i] in returned && all[j] in rows;
      } else {
        var a, b := rows[i - |returned|], rows[j - |returned|];
        assert a in rows && b in rows;
        TimesDiffer(ops, ticket, a, b);
      }
    }
  }

  /** Right after the poll at `i` everything still in the table has been returned. */
  ghost predicate CaughtUpAt(c: Retention, ticket: real, ops: seq<Op>, i: nat)
    requires i < |ops|
  {
    var s := Exec(c, ticket, ops[..i + 1]);
    ops[i].Poll? ==> forall x :: x in s.table.records ==> x in s.returned
  }

  ghost predicate CaughtUpThroughout(c: Retention, ticket: real, ops: seq<Op>) {
    forall i {:trigger CaughtUpAt(c, ticket, ops, i)} :: 0 <= i < |ops| ==> CaughtUpAt(c, ticket, ops, i)
  }

  /** What is returned over a run was inserted, and comes once each and in order of time. */
  lemma EverythingOnceInOrder(c: Retention, ticket: real, ops: seq<Op>)
    requires Advancing(ops, ticket) && EnoughThroughout(c, ticket, ops)
    ensures var s := Exec(c, ticket, ops); StrictOrder(s.returned) && forall x :: x in s.returned ==> InsertedIn(ops, x)
  {
    RunComplete(c, ticket, ops);
    assert forall x :: x in Exec(c, ticket, ops).returned ==> InsertedIn(ops, x);
  }

  /**
   Under a strictly advancing clock every poll leaves the caller with every record still in the table, exactly
   if every poll is unlimited or at least as large as what is pending when it is made.
   */
  lemma CaughtUpIff(c: Retention, ticket: real, ops: seq<Op>)
    requires Advancing(ops, ticket)
    ensures CaughtUpThroughout(c, ticket, ops) <==> EnoughThroughout(c, ticket, ops)
  {
    forall i | 0 <= i < |ops| && CaughtUpAt(c, ticket, ops, i) ensures EnoughAt(c, ticket, ops, i) {
      CaughtUpNeedsSize(c, ticket, ops, i);
    }
    if EnoughThroughout(c, ticket, ops) {
      forall i | 0 <= i < |ops| ensures CaughtUpAt(c, ticket, ops, i) {
        EnoughBefore(c, ticket, ops, i);
        RunComplete(c, ticket, ops[..i]);
        SizeCatchesUp(c, ticket, ops, i);
      }
    }
  }

  /** One poll catches up exactly if it is large enough and nothing earlier was missed. */
  lemma PollCatchesUp(s: Run, size: int)
    requires Sound(s)
    ensures var rows := Rows(s.table.records, s.ticket, size);
      (forall x :: x in s.table.records ==> x in s.returned + rows) <==>
        LargeEnough(s.table.records, s.ticket, size) && NoneMissed(s)
  {
    var rows := Rows(s.table.records, s.ticket, size);
    PollFacts(s.table.records, s.ticket, size);
    AllReturnedIff(s.table.records, s.ticket, size);
    assert forall x :: x in s.returned + rows <==> x in s.returned || x in rows;
  }

  lemma ExecPoll(c: Retention, ticket: real, ops: seq<Op>, i: nat)
    requires i < |ops| && ops[i].Poll?
    ensures Exec(c, ticket, ops[..i + 1]) == Apply(c, Exec(c, ticket, ops[..i]), ops[i]) &&
      Sound(Exec(c, ticket, ops[..i]))
  {
    assert ops[..i + 1][..i] == ops[..i];
    NothingTwice(c, ticket, ops[..i], 0);
  }

  lemma CaughtUpNeedsSize(c: Retention, ticket: real, ops: seq<Op>, i: nat)
    requires i < |ops| && CaughtUpAt(c, ticket, ops, i)
    ensures EnoughAt(c, ticket, ops, i)
  {
    if ops[i].Poll? {
      ExecPoll(c, ticket, ops, i);
      PollCatchesUp(Exec(c, ticket, ops[..i]), ops[i].size);
    }
  }

  lemma SizeCatchesUp(c: Retention, ticket: real, ops: seq<Op>, i: nat)
    requires i < |ops| && EnoughAt(c, ticket, ops, i) && NoneMissed(Exec(c, ticket, ops[..i]))
    ensures CaughtUpAt(c, ticket, ops, i)
  {
    if ops[i].Poll? {
      ExecPoll(c, ticket, ops, i);
      PollCatchesUp(Exec(c, ticket, ops[..i]), ops[i].size);
    }
  }

  /** What a limited poll leaves out is not later than its ticket. */
  lemma LimitedPollSkips(s: seq<Record>, ticket: real, size: int, x: Record)
    requires UniqueKeys(s) && x in s && x.ctime > ticket && x !in Rows(s, ticket, size)
    ensures x.ctime <= NextTicket(Rows(s, ticket, size), ticket)
  {
    PollFacts(s, ticket, size);
  }

  /** Whatever a run has not returned once its ticket has passed it, no continuation ever returns. */
  lemma {:induction false} SkippedForGood(c: Retention, ticket: real, ops: seq<Op>, n: nat, x: Record)
    requires n <= |ops|
    requires var s := Exec(c, ticket, ops[..n]); x.ctime <= s.ticket && x !in s.returned
    ensures x !in Exec(c, ticket, ops).returned
    decreases |ops|
  {
    if n == |ops| {
      assert ops[..n] == ops;
    } else {
      var rest := ops[..|ops| - 1];
      assert rest[..n] == ops[..n];
      SkippedForGood(c, ticket, rest, n, x);
      NothingTwice(c, ticket, rest, n);
      var s := Exec(c, ticket, rest);
      if ops[|ops| - 1].Poll? {
        PollFacts(s.table.records, s.ticket, ops[|ops| - 1].size);
      }
    }
  }

  // ----- a record that is lost -----

  const FIRST := Record(0, 1, 1.0, "")
  const SECOND := Record(0, 2, 2.0, "")

  lemma LoneRecord()
    ensures Exec(Retention(0, 0), 0.0, [Insert(FIRST, true)]) == Run(Table([FIRST], 1), 0.0, [])
  {
    var ops := [Insert(FIRST, true)];
    assert ops[..|ops| - 1] == [];
  }

  lemma BothSaved()
    ensures Exec(Retention(0, 0), 0.0, [Insert(FIRST, true), Insert(SECOND, true)]) ==
      Run(Table([FIRST, SECOND], 2), 0.0, [])
  {
    var ops := [Insert(FIRST, true), Insert(SECOND, true)];
    assert ops[..|ops| - 1] == [Insert(FIRST, true)];
    LoneRecord();
    assert !Conflict([FIRST], SECOND);
    assert [FIRST] + [SECOND] == [FIRST, SECOND];
  }

  lemma BothPending()
    ensures Pending([FIRST, SECOND], 0.0) == [FIRST, SECOND]
  {
    assert [FIRST][..0] == [] && [FIRST, SECOND][..1] == [FIRST];
    assert Pending([FIRST], 0.0) == [FIRST];
  }

  lemma PairInOrder(rows: seq<Record>, a: Record, b: Record)
    requires |rows| == 2 && Distinct(rows) && InOrder(rows) && a.ctime < b.ctime
    requires forall x :: x in rows ==> x == a || x == b
    ensures rows == [a, b]
  {
    assert rows[0] in rows && rows[1] in rows;
  }

  lemma NewerOnly()
    ensures Rows([FIRST, SECOND], 0.0, 1) == [SECOND]
  {
    BothPending();
    ByTimeFacts([FIRST, SECOND]);
    PairInOrder(ByTime([FIRST, SECOND]), FIRST, SECOND);
  }

  /**
   Two results saved, then polled for one: the older one stays in the table and is never returned, whatever
   follows.
   */
  lemma OlderIsLost(later: seq<Op>)
    ensures var ops := [Insert(FIRST, true), Insert(SECOND, true), Poll(1)];
            FIRST in Exec(Retention(0, 0), 0.0, ops).table.records &&
              FIRST !in Exec(Retention(0, 0), 0.0, ops + later).returned
  {
    var ops := [Insert(FIRST, true), Insert(SECOND, true), Poll(1)];
    assert ops[..|ops| - 1] == [Insert(FIRST, true), Insert(SECOND, true)];
    BothSaved();
    NewerOnly();
    assert (ops + later)[..3] == ops;
    SkippedForGood(Retention(0, 0), 0.0, ops + later, 3, FIRST);
  }
}
