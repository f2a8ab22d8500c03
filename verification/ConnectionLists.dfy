/** What moves in and out of the lists of connections, and that this keeps the invariant. */
module ConnectionLists {
  import opened ConnectionPool
  import opened Reversal
  import opened Connections

  // ----- Lists and what they name -------------------------------------------------------------------

  lemma BagConcat(a: seq<Entry>, b: seq<Entry>)
    ensures Bag(a + b) == Bag(a) + Bag(b)
  {
    assert Names(a + b) == Names(a) + Names(b);
  }

  lemma {:induction false} BagReversed(es: seq<Entry>)
    ensures Bag(Reversed(es)) == Bag(es)
    decreases |es|
  {
    if es != [] {
      BagReversed(es[1..]);
      BagConcat(Reversed(es[1..]), [es[0]]);
      BagConcat([es[0]], es[1..]);
      assert es == [es[0]] + es[1..];
    }
  }

  lemma BagOne(e: Entry)
    ensures Bag([e]) == multiset{e.conn}
  {
    assert Names([e]) == [e.conn];
  }

  lemma BagSplit(es: seq<Entry>, n: nat)
    requires n <= |es|
    ensures Bag(es[..n]) + Bag(es[n..]) == Bag(es)
  {
    BagConcat(es[..n], es[n..]);
    assert es == es[..n] + es[n..];
  }

  lemma SweepConserves(es: seq<Entry>, lifeTime: int, now: int)
    ensures Bag(Sweep(es, lifeTime, now).entries) + Bag(Sweep(es, lifeTime, now).garbage) == Bag(es)
  {
    var n := StaleRun(es, lifeTime, now);
    BagSplit(es, n);
    BagReversed(es[..n]);
  }

  lemma GetConserves(es: seq<Entry>, limit: nat, lifeTime: int, now: int)
    ensures var got := GetEntries(es, limit, lifeTime, now);
      Bag(got.entries) + (Bag(got.garbage) + if got.conn.AConn? then multiset{got.conn.conn} else multiset{}) == Bag(es)
  {
    if limit > 0 {
      SweepConserves(es, lifeTime, now);
      var swept := Sweep(es, lifeTime, now).entries;
      if swept != [] {
        var last := |swept| - 1;
        BagSplit(swept, last);
        assert swept[last..] == [swept[last]];
        BagOne(swept[last]);
      }
    }
  }

  lemma BagFirst(es: seq<Entry>)
    requires es != []
    ensures Bag(es) == multiset{es[0].conn} + Bag(es[1..])
  {
    BagOne(es[0]);
    BagConcat([es[0]], es[1..]);
    assert es == [es[0]] + es[1..];
  }

  lemma PutConserves(es: seq<Entry>, limit: nat, lifeTime: int, c: MaybeConn, now: int)
    ensures var out := PutEntries(es, limit, lifeTime, c, now);
      var added := if limit > 0 && c.AConn? then es + [Entry(c.conn, now)] else es;
      Bag(out.entries) + Bag(out.garbage) == Bag(added)
  {
    hide Bag, Sweep;
    BagEmpty();
    if limit > 0 {
      var added := if c.AConn? then es + [Entry(c.conn, now)] else es;
      SweepConserves(added, lifeTime, now);
      var swept := Sweep(added, lifeTime, now);
      if |swept.entries| > limit {
        BagFirst(swept.entries);
        BagConcat([swept.entries[0]], swept.garbage);
        BagOne(swept.entries[0]);
        var first, rest := multiset{swept.entries[0].conn}, Bag(swept.entries[1..]);
        assert rest + (first + Bag(swept.garbage)) == (first + rest) + Bag(swept.garbage);
      }
    }
  }

  lemma BagEmpty()
    ensures Bag([]) == multiset{}
  {
  }

  // ----- The invariant is kept ----------------------------------------------------------------------

  /** After the move exactly the moved connections have stopped being pooled. */
  lemma MoveOutPooled(s: State, p: nat, kept: seq<Entry>, moved: multiset<nat>)
    requires PoolsOk(s) && ListsDisjoint(s) && p < |s.pools|
    requires Bag(kept) + moved == Bag(s.pools[p].entries)
    ensures var s' := MoveOut(s, p, kept, moved);
      && ListsDisjoint(s')
      && forall c: nat :: IsPooled(s', c) <==> IsPooled(s, c) && c !in moved
    ensures forall c :: c in moved ==> moved[c] == 1
  {
    hide Bag;
    var s' := MoveOut(s, p, kept, moved);
    var was := Bag(s.pools[p].entries);
    assert PoolOk(s, p);
    assert forall c :: Bag(kept)[c] + moved[c] == was[c] <= 1;
    assert forall q :: 0 <= q < |s.pools| && q != p ==> s'.pools[q] == s.pools[q];
    forall c: nat
      ensures IsPooled(s', c) <==> IsPooled(s, c) && c !in moved
    {
      if IsPooled(s', c) {
        var q :| 0 <= q < |s'.pools| && c in Bag(s'.pools[q].entries);
        assert c in Bag(s.pools[q].entries);
      }
      if IsPooled(s, c) && c !in moved {
        var q :| 0 <= q < |s.pools| && c in Bag(s.pools[q].entries);
        assert c in Bag(s'.pools[q].entries);
      }
    }
  }

  lemma MoveOutConn(s: State, p: nat, kept: seq<Entry>, moved: multiset<nat>, c: nat)
    requires ConnsOk(s) && PoolsOk(s) && ListsDisjoint(s) && p < |s.pools| && c < |s.conns|
    requires Bag(kept) + moved == Bag(s.pools[p].entries)
    ensures ConnOk(MoveOut(s, p, kept, moved), c)
  {
    hide Bag, ListsDisjoint, PoolOk;
    MoveOutPooled(s, p, kept, moved);
    assert ConnOk(s, c);
    assert (s.connRefs + moved)[c] == s.connRefs[c] + moved[c];
    if c in moved {
      assert c in Bag(s.pools[p].entries);
      assert IsPooled(s, c);
    }
  }

  lemma MoveOutPool(s: State, p: nat, kept: seq<Entry>, moved: multiset<nat>, q: nat)
    requires PoolsOk(s) && p < |s.pools| && q < |s.pools|
    requires Bag(kept) + moved == Bag(s.pools[p].entries)
    requires s.pools[p].deleted ==> kept == []
    ensures PoolOk(MoveOut(s, p, kept, moved), q)
  {
    hide Bag;
    assert PoolOk(s, q);
    if p == q {
      assert forall c :: Bag(kept)[c] + moved[c] == Bag(s.pools[p].entries)[c];
    }
  }

  lemma MoveOutNames(s: State, p: nat, kept: seq<Entry>, moved: multiset<nat>)
    requires NamesOk(s) && p < |s.pools|
    requires Bag(kept) + moved == Bag(s.pools[p].entries)
    ensures NamesOk(MoveOut(s, p, kept, moved))
  {
    hide Bag;
    assert forall c :: c in Bag(kept) || c in moved ==> c in Bag(s.pools[p].entries);
  }

  /** Moving entries from a list to a thread moves the references with them. */
  lemma MoveOutKeepsInv(s: State, p: nat, kept: seq<Entry>, moved: multiset<nat>)
    requires Inv(s) && p < |s.pools|
    requires Bag(kept) + moved == Bag(s.pools[p].entries)
    requires s.pools[p].deleted ==> kept == []
    ensures Inv(MoveOut(s, p, kept, moved))
  {
    hide Bag, ConnOk, PoolOk, ListsDisjoint, NamesOk;
    var s' := MoveOut(s, p, kept, moved);
    MoveOutPooled(s, p, kept, moved);
    MoveOutNames(s, p, kept, moved);
    forall c: nat | c < |s.conns|
      ensures ConnOk(s', c)
    {
      MoveOutConn(s, p, kept, moved, c);
    }
    forall q: nat | q < |s.pools|
      ensures PoolOk(s', q)
    {
      MoveOutPool(s, p, kept, moved, q);
    }
  }
}
