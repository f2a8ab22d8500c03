/** The timed list of idle connections of db/common/connection_pool.cc. */
module ConnectionPool {

  import opened Reversal

  datatype Entry = Entry(conn: nat, lastUsed: int)

  datatype MaybeConn = NoConn | AConn(conn: nat)

  predicate Expired(e: Entry, lifeTime: int, now: int) {
    e.lastUsed + lifeTime < now
  }

  /** How many entries the sweep takes off the front: it stops at the first that has not expired. */
  function StaleRun(entries: seq<Entry>, lifeTime: int, now: int): (n: nat)
    ensures n <= |entries|
    ensures forall i :: 0 <= i < n ==> Expired(entries[i], lifeTime, now)
    ensures n < |entries| ==> !Expired(entries[n], lifeTime, now)
  {
    if entries != [] && Expired(entries[0], lifeTime, now) then 1 + StaleRun(entries[1..], lifeTime, now) else 0
  }

  /** The entries that have not expired, wherever they are. */
  function Unexpired(entries: seq<Entry>, lifeTime: int, now: int): seq<Entry> {
    if entries == [] then []
    else (if Expired(entries[0], lifeTime, now) then [] else [entries[0]]) + Unexpired(entries[1..], lifeTime, now)
  }

  // ----- What each operation does to the list -------------------------------------------------------

  /** The list after an operation, and the entries it threw out, in the order their destructors run. */
  datatype Outcome = Outcome(entries: seq<Entry>, garbage: seq<Entry>)

  function Sweep(entries: seq<Entry>, lifeTime: int, now: int): Outcome {
    var n := StaleRun(entries, lifeTime, now);
    Outcome(entries[n..], Reversed(entries[..n]))
  }

  datatype GetOutcome = GetOutcome(entries: seq<Entry>, garbage: seq<Entry>, conn: MaybeConn)

  function GetEntries(entries: seq<Entry>, limit: nat, lifeTime: int, now: int): GetOutcome {
    if limit == 0 then GetOutcome(entries, [], NoConn)
    else
      var swept := Sweep(entries, lifeTime, now);
      if swept.entries == [] then GetOutcome([], swept.garbage, NoConn)
      else
        var last := |swept.entries| - 1;
        GetOutcome(swept.entries[..last], swept.garbage, AConn(swept.entries[last].conn))
  }

  function PutEntries(entries: seq<Entry>, limit: nat, lifeTime: int, c: MaybeConn, now: int): Outcome {
    if limit == 0 then Outcome(entries, [])
    else
      var added := if c.AConn? then entries + [Entry(c.conn, now)] else entries;
      var swept := Sweep(added, lifeTime, now);
      if |swept.entries| > limit then Outcome(swept.entries[1..], [swept.entries[0]] + swept.garbage) else swept
  }

  // ----- The pool -----------------------------------------------------------------------------------

  class Pool {
    const limit: nat
    const lifeTime: int
    var entries: seq<Entry>
    var size: nat

    predicate Valid()
      reads this
    {
      size == |entries| && size <= limit
    }

    constructor (limit: nat, lifeTime: int)
      ensures Valid() && this.limit == limit && this.lifeTime == lifeTime && entries == []
    {
      this.limit, this.lifeTime := limit, lifeTime;
      entries, size := [], 0;
    }

    /** The loop at the head of get and Put, with size_ kept in step. */
    method SweepFront(now: int) returns (garbage: seq<Entry>)
      requires size == |entries|
      modifies this
      ensures size == |entries| && Outcome(entries, garbage) == Sweep(old(entries), lifeTime, now)
    {
      ghost var was := entries;
      garbage := [];
      ghost var taken := 0;
      while entries != [] && Expired(entries[0], lifeTime, now)
        invariant taken <= |was| && entries == was[taken..] && size == |entries|
        invariant garbage == Reversed(was[..taken])
        invariant taken + StaleRun(entries, lifeTime, now) == StaleRun(was, lifeTime, now)
        decreases |entries|
      {
        ReversedAppend(was[..taken], entries[0]);
        assert was[..taken + 1] == was[..taken] + [entries[0]];
        garbage := [entries[0]] + garbage;
        entries := entries[1..];
        size := size - 1;
        taken := taken + 1;
      }
    }

    method Get(now: int) returns (c: MaybeConn, garbage: seq<Entry>)
      requires Valid()
      modifies this
      ensures Valid()
      ensures GetOutcome(entries, garbage, c) == GetEntries(old(entries), limit, lifeTime, now)
    {
      c, garbage := NoConn, [];
      if limit == 0 {
        return;
      }
      garbage := SweepFront(now);
      if entries != [] {
        c := AConn(entries[|entries| - 1].conn);
        entries := entries[..|entries| - 1];
        size := size - 1;
      }
    }

    /** Put and, with no connection, GC. With limit 0 the caller's connection is deleted on return. */
    method Put(c: MaybeConn, now: int) returns (garbage: seq<Entry>)
      requires Valid()
      modifies this
      ensures Valid()
      ensures Outcome(entries, garbage) == PutEntries(old(entries), limit, lifeTime, c, now)
    {
      garbage := [];
      if limit == 0 {
        return;
      }
      if c.AConn? {
        entries := entries + [Entry(c.conn, now)];
        size := size + 1;
      }
      garbage := SweepFront(now);
      if size > limit {
        garbage := [entries[0]] + garbage;
        entries := entries[1..];
        size := size - 1;
      }
    }

    method Clear() returns (garbage: seq<Entry>)
      requires Valid()
      modifies this
      ensures Valid() && entries == [] && garbage == old(entries)
    {
      garbage := entries;
      entries, size := [], 0;
    }
  }

  // ----- The sweep is exact -------------------------------------------------------------------------

  predicate Sorted(entries: seq<Entry>) {
    forall i, j :: 0 <= i < j < |entries| ==> entries[i].lastUsed <= entries[j].lastUsed
  }

  /** Nothing was put after the given clock reading. */
  predicate NotAfter(entries: seq<Entry>, clock: int) {
    forall i :: 0 <= i < |entries| ==> entries[i].lastUsed <= clock
  }

  /** No expired entry hides behind one that has not expired. */
  predicate ExpiredFirst(entries: seq<Entry>, lifeTime: int, now: int) {
    forall i, j :: 0 <= i < j < |entries| && Expired(entries[j], lifeTime, now) ==> Expired(entries[i], lifeTime, now)
  }

  lemma {:induction false} UnexpiredKeepsAll(entries: seq<Entry>, lifeTime: int, now: int)
    requires forall i :: 0 <= i < |entries| ==> !Expired(entries[i], lifeTime, now)
    ensures Unexpired(entries, lifeTime, now) == entries
    decreases |entries|
  {
    if entries != [] {
      UnexpiredKeepsAll(entries[1..], lifeTime, now);
    }
  }

  lemma {:induction false} UnexpiredMembers(entries: seq<Entry>, lifeTime: int, now: int)
    ensures forall e :: e in Unexpired(entries, lifeTime, now) <==> e in entries && !Expired(e, lifeTime, now)
    decreases |entries|
  {
    if entries != [] {
      UnexpiredMembers(entries[1..], lifeTime, now);
      assert entries == [entries[0]] + entries[1..];
    }
  }

  lemma {:induction false} UnexpiredSkips(entries: seq<Entry>, lifeTime: int, now: int, n: nat)
    requires n <= |entries| && forall i :: 0 <= i < n ==> Expired(entries[i], lifeTime, now)
    ensures Unexpired(entries, lifeTime, now) == Unexpired(entries[n..], lifeTime, now)
    decreases n
  {
    if n > 0 {
      UnexpiredSkips(entries[1..], lifeTime, now, n - 1);
      assert entries[1..][n - 1..] == entries[n..];
    }
  }

  lemma SweepLeavesUnexpired(entries: seq<Entry>, lifeTime: int, now: int)
    requires ExpiredFirst(entries, lifeTime, now)
    ensures Sweep(entries, lifeTime, now).entries == Unexpired(entries, lifeTime, now)
  {
    hide Unexpired, StaleRun, Expired;
    var n := StaleRun(entries, lifeTime, now);
    UnexpiredSkips(entries, lifeTime, now, n);
    var rest := entries[n..];
    forall i | 0 <= i < |rest|
      ensures !Expired(rest[i], lifeTime, now)
    {
      assert rest[i] == entries[n + i];
    }
    UnexpiredKeepsAll(rest, lifeTime, now);
  }

  lemma SweepMissesHidden(entries: seq<Entry>, lifeTime: int, now: int, i: nat, j: nat)
    requires i < j < |entries| && Expired(entries[j], lifeTime, now) && !Expired(entries[i], lifeTime, now)
    ensures Sweep(entries, lifeTime, now).entries != Unexpired(entries, lifeTime, now)
  {
    var n := StaleRun(entries, lifeTime, now);
    assert entries[j] == entries[n..][j - n];
    UnexpiredMembers(entries, lifeTime, now);
  }

  /** The sweep stops at the first entry that has not expired; it leaves exactly the unexpired entries if and
      only if no expired one hides behind it. */
  lemma SweepExactness(entries: seq<Entry>, lifeTime: int, now: int)
    ensures Sweep(entries, lifeTime, now).entries == Unexpired(entries, lifeTime, now)
            <==> ExpiredFirst(entries, lifeTime, now)
  {
    hide Sweep, Unexpired;
    if ExpiredFirst(entries, lifeTime, now) {
      SweepLeavesUnexpired(entries, lifeTime, now);
    } else {
      var i, j :| 0 <= i < j < |entries| && Expired(entries[j], lifeTime, now) && !Expired(entries[i], lifeTime, now);
      SweepMissesHidden(entries, lifeTime, now, i, j);
    }
  }

  lemma SortedSweepsExactly(entries: seq<Entry>, lifeTime: int, now: int)
    requires Sorted(entries)
    ensures Sweep(entries, lifeTime, now).entries == Unexpired(entries, lifeTime, now)
    ensures Sorted(Sweep(entries, lifeTime, now).entries)
  {
    hide Unexpired;
    SweepLeavesUnexpired(entries, lifeTime, now);
  }

  /** get hands out the most recently returned unexpired connection, and none only when there is none. */
  lemma GetIsMostRecent(entries: seq<Entry>, limit: nat, lifeTime: int, now: int)
    requires Sorted(entries) && limit > 0
    ensures var good := Unexpired(entries, lifeTime, now);
      var got := GetEntries(entries, limit, lifeTime, now);
      if good == [] then got.conn == NoConn && got.entries == []
      else
        && got.conn == AConn(good[|good| - 1].conn)
        && got.entries == good[..|good| - 1]
        && forall i :: 0 <= i < |good| ==> good[i].lastUsed <= good[|good| - 1].lastUsed
  {
    hide Unexpired, Sweep;
    SortedSweepsExactly(entries, lifeTime, now);
  }

  /** On any list, sorted or not: get hands out the last entry as soon as one entry has not expired, and nothing
      otherwise. So it hands out an expired connection if and only if the last entry has expired and another
      has not. */
  lemma GetHandsOutLast(entries: seq<Entry>, limit: nat, lifeTime: int, now: int)
    requires limit > 0 && entries != []
    ensures var got, last := GetEntries(entries, limit, lifeTime, now), entries[|entries| - 1];
      && got.conn == (if AllExpired(entries, lifeTime, now) then NoConn else AConn(last.conn))
      && (got.conn.AConn? && Expired(last, lifeTime, now) <==>
          Expired(last, lifeTime, now) && exists i :: 0 <= i < |entries| && !Expired(entries[i], lifeTime, now))
  {
    hide Expired, StaleRun;
    var n := StaleRun(entries, lifeTime, now);
    if n < |entries| {
      assert !AllExpired(entries, lifeTime, now);
      assert entries[n..][|entries| - n - 1] == entries[|entries| - 1];
    }
  }

  predicate AllExpired(entries: seq<Entry>, lifeTime: int, now: int) {
    forall i :: 0 <= i < |entries| ==> Expired(entries[i], lifeTime, now)
  }

  /** On a sorted list the sweep keeps exactly what has been idle for at most the life time. */
  lemma SweepByAge(entries: seq<Entry>, lifeTime: int, now: int)
    requires Sorted(entries)
    ensures forall e :: e in Sweep(entries, lifeTime, now).entries <==> e in entries && now - e.lastUsed <= lifeTime
  {
    hide Unexpired, Sweep;
    SortedSweepsExactly(entries, lifeTime, now);
    UnexpiredMembers(entries, lifeTime, now);
  }

  lemma {:induction false} UnexpiredNoLonger(entries: seq<Entry>, lifeTime: int, now: int)
    ensures |Unexpired(entries, lifeTime, now)| <= |entries|
    decreases |entries|
  {
    if entries != [] {
      UnexpiredNoLonger(entries[1..], lifeTime, now);
    }
  }

  /** Put on a sorted list keeps the most recent of the unexpired entries, the new one included, up to the limit; a
      collection keeps all the unexpired ones. */
  lemma PutKeepsMostRecent(entries: seq<Entry>, limit: nat, lifeTime: int, c: MaybeConn, now: int)
    requires Sorted(entries) && NotAfter(entries, now) && |entries| <= limit && limit > 0
    ensures var all := Unexpired(if c.AConn? then entries + [Entry(c.conn, now)] else entries, lifeTime, now);
      var kept := PutEntries(entries, limit, lifeTime, c, now).entries;
      kept == if |all| <= limit then all else all[|all| - limit..]
  {
    hide Unexpired, StaleRun;
    var added := if c.AConn? then entries + [Entry(c.conn, now)] else entries;
    AddIsTidy(entries, c, now, now);
    SortedSweepsExactly(added, lifeTime, now);
    assert |Sweep(added, lifeTime, now).entries| <= limit + 1;
  }

  /** A connection just put with a life time that is not negative is the last entry. */
  lemma PutIsLast(entries: seq<Entry>, limit: nat, lifeTime: int, c: nat, now: int)
    requires limit > 0 && lifeTime >= 0
    ensures var kept := PutEntries(entries, limit, lifeTime, AConn(c), now).entries;
      kept != [] && kept[|kept| - 1] == Entry(c, now)
  {
    var added := entries + [Entry(c, now)];
    var n := StaleRun(added, lifeTime, now);
    assert !Expired(added[|entries|], lifeTime, now);
    assert n <= |entries|;
    assert added[n..][|entries| - n] == Entry(c, now);
  }

  // ----- Over whole runs ----------------------------------------------------------------------------

  datatype Op = GetOp(now: int) | PutOp(conn: nat, now: int) | GcOp(now: int) | ClearOp

  function Apply(entries: seq<Entry>, limit: nat, lifeTime: int, op: Op): seq<Entry> {
    match op
    case GetOp(now) => GetEntries(entries, limit, lifeTime, now).entries
    case PutOp(c, now) => PutEntries(entries, limit, lifeTime, AConn(c), now).entries
    case GcOp(now) => PutEntries(entries, limit, lifeTime, NoConn, now).entries
    case ClearOp => []
  }

  function ApplyAll(entries: seq<Entry>, limit: nat, lifeTime: int, ops: seq<Op>): seq<Entry>
    decreases |ops|
  {
    if ops == [] then entries else ApplyAll(Apply(entries, limit, lifeTime, ops[0]), limit, lifeTime, ops[1..])
  }

  function ClockAfter(clock: int, op: Op): int {
    if op.ClearOp? then clock else op.now
  }

  /** Clock readings do not go back in the order the operations get the lock. */
  predicate Monotone(clock: int, ops: seq<Op>)
    decreases |ops|
  {
    ops == [] || (clock <= ClockAfter(clock, ops[0]) && Monotone(ClockAfter(clock, ops[0]), ops[1..]))
  }

  ghost predicate Tidy(entries: seq<Entry>, limit: nat, clock: int) {
    Sorted(entries) && NotAfter(entries, clock) && |entries| <= limit
  }

  lemma SliceIsTidy(entries: seq<Entry>, from: nat, to: nat, clock: int, now: int)
    requires from <= to <= |entries| && Sorted(entries) && NotAfter(entries, clock) && clock <= now
    ensures Sorted(entries[from..to]) && NotAfter(entries[from..to], now)
  {
    var part := entries[from..to];
    assert forall i :: 0 <= i < |part| ==> part[i] == entries[from + i];
  }

  lemma AddIsTidy(entries: seq<Entry>, c: MaybeConn, clock: int, now: int)
    requires Sorted(entries) && NotAfter(entries, clock) && clock <= now
    ensures var added := if c.AConn? then entries + [Entry(c.conn, now)] else entries;
      Sorted(added) && NotAfter(added, now)
  {
  }

  lemma SweepIsTidy(entries: seq<Entry>, lifeTime: int, now: int)
    requires Sorted(entries) && NotAfter(entries, now)
    ensures var swept := Sweep(entries, lifeTime, now).entries;
      && |swept| <= |entries| && Sorted(swept) && NotAfter(swept, now)
      && (swept != [] ==> Sorted(swept[1..]) && NotAfter(swept[1..], now))
      && (swept != [] ==> Sorted(swept[..|swept| - 1]) && NotAfter(swept[..|swept| - 1], now))
  {
    hide Sorted, NotAfter;
    var n := StaleRun(entries, lifeTime, now);
    var swept := entries[n..];
    SliceIsTidy(entries, n, |entries|, now, now);
    assert entries[n..|entries|] == swept;
    if swept != [] {
      SliceIsTidy(swept, 1, |swept|, now, now);
      assert swept[1..|swept|] == swept[1..];
      SliceIsTidy(swept, 0, |swept| - 1, now, now);
      assert swept[0..|swept| - 1] == swept[..|swept| - 1];
    }
  }

  lemma PutStaysTidy(entries: seq<Entry>, limit: nat, lifeTime: int, clock: int, c: MaybeConn, now: int)
    requires Tidy(entries, limit, clock) && clock <= now
    ensures Tidy(PutEntries(entries, limit, lifeTime, c, now).entries, limit, now)
  {
    hide Sorted, NotAfter, Sweep;
    var added := if c.AConn? then entries + [Entry(c.conn, now)] else entries;
    AddIsTidy(entries, c, clock, now);
    AddIsTidy(entries, NoConn, clock, now);
    SweepIsTidy(added, lifeTime, now);
  }

  lemma GetStaysTidy(entries: seq<Entry>, limit: nat, lifeTime: int, clock: int, now: int)
    requires Tidy(entries, limit, clock) && clock <= now
    ensures Tidy(GetEntries(entries, limit, lifeTime, now).entries, limit, now)
  {
    hide Sorted, NotAfter, Sweep;
    AddIsTidy(entries, NoConn, clock, now);
    SweepIsTidy(entries, lifeTime, now);
  }

  lemma ApplyKeepsTidy(entries: seq<Entry>, limit: nat, lifeTime: int, clock: int, op: Op)
    requires Tidy(entries, limit, clock) && clock <= ClockAfter(clock, op)
    ensures Tidy(Apply(entries, limit, lifeTime, op), limit, ClockAfter(clock, op))
  {
    hide PutEntries, GetEntries;
    match op
    case GetOp(now) => GetStaysTidy(entries, limit, lifeTime, clock, now);
    case PutOp(c, now) => PutStaysTidy(entries, limit, lifeTime, clock, AConn(c), now);
    case GcOp(now) => PutStaysTidy(entries, limit, lifeTime, clock, NoConn, now);
    case ClearOp =>
  }

  /** In every run with a monotone clock the list stays sorted by last use and within its limit, so every sweep
      leaves exactly the unexpired entries. */
  lemma {:induction false} RunStaysTidy(entries: seq<Entry>, limit: nat, lifeTime: int, clock: int, ops: seq<Op>, now: int)
    requires Tidy(entries, limit, clock) && Monotone(clock, ops)
    ensures var after := ApplyAll(entries, limit, lifeTime, ops);
      && Sorted(after) && |after| <= limit
      && Sweep(after, lifeTime, now).entries == Unexpired(after, lifeTime, now)
    decreases |ops|
  {
    if ops == [] {
      SortedSweepsExactly(entries, lifeTime, now);
    } else {
      ApplyKeepsTidy(entries, limit, lifeTime, clock, ops[0]);
      RunStaysTidy(Apply(entries, limit, lifeTime, ops[0]), limit, lifeTime, ClockAfter(clock, ops[0]), ops[1..], now);
    }
  }

  /** When two threads read the clock in one order and get the lock in the other, an expired entry can hide
      behind a fresh one and survive the sweep. */
  lemma OutOfOrderPutsHideExpired()
    ensures var after := ApplyAll([], 4, 5, [PutOp(0, 10), PutOp(1, 0)]);
      Sweep(after, 5, 12).entries != Unexpired(after, 5, 12)
  {
    var first := Apply([], 4, 5, PutOp(0, 10));
    assert first == [Entry(0, 10)];
    var second := Apply(first, 4, 5, PutOp(1, 0));
    assert second == [Entry(0, 10), Entry(1, 0)];
    assert ApplyAll([], 4, 5, [PutOp(0, 10), PutOp(1, 0)]) == second by {
      assert [PutOp(0, 10), PutOp(1, 0)][1..] == [PutOp(1, 0)];
      assert [PutOp(1, 0)][1..] == [];
    }
    assert Expired(second[1], 5, 12) && !Expired(second[0], 5, 12);
    SweepExactness(second, 5, 12);
  }
}
