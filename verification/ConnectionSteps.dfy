/** The steps that change one connection keep the invariant. */
module ConnectionSteps {
  import opened Totals
  import opened ConnectionPool
  import opened Connections
  import opened ConnectionLists

  // ----- Steps that change one connection -----------------------------------------------------------

  /** The lists are as they were. */
  predicate SameLists(s: State, s': State) {
    |s'.pools| == |s.pools| && forall p :: 0 <= p < |s.pools| ==> s'.pools[p].entries == s.pools[p].entries
  }

  lemma SameListsSamePooled(s: State, s': State)
    requires SameLists(s, s')
    ensures forall c: nat :: IsPooled(s', c) <==> IsPooled(s, c)
    ensures ListsDisjoint(s) ==> ListsDisjoint(s')
  {
    hide Bag;
    forall c: nat
      ensures IsPooled(s', c) <==> IsPooled(s, c)
    {
      if IsPooled(s, c) {
        var p :| 0 <= p < |s.pools| && c in Bag(s.pools[p].entries);
        assert c in Bag(s'.pools[p].entries);
      }
      if IsPooled(s', c) {
        var p :| 0 <= p < |s'.pools| && c in Bag(s'.pools[p].entries);
        assert c in Bag(s.pools[p].entries);
      }
    }
  }

  /** Everything but the changed connection and the pools' counts carries over. */
  lemma NamesCarryOver(s: State, s': State, c: nat)
    requires NamesOk(s) && SameLists(s, s') && c < |s.conns|
    requires |s'.conns| == |s.conns| && s'.conns == s.conns[c := s'.conns[c]]
    requires forall p: nat :: Holds(s'.conns[c], p) ==> p < |s.pools|
    requires forall d :: d in s'.connRefs ==> d < |s.conns|
    requires forall p :: p in s'.poolRefs ==> p < |s.pools|
    ensures NamesOk(s')
  {
    hide Bag, Holds;
    forall d, p: nat | 0 <= d < |s'.conns| && Holds(s'.conns[d], p)
      ensures p < |s'.pools|
    {
      if d != c {
        assert Holds(s.conns[d], p);
      }
    }
  }

  lemma OthersCarryOver(s: State, s': State, c: nat)
    requires ConnsOk(s) && SameLists(s, s') && c < |s.conns|
    requires |s'.conns| == |s.conns| && s'.conns == s.conns[c := s'.conns[c]] && ConnOk(s', c)
    requires forall d: nat :: d < |s.conns| && d != c ==> s'.connRefs[d] == s.connRefs[d]
    ensures ConnsOk(s')
  {
    hide IsPooled;
    SameListsSamePooled(s, s');
    forall d: nat | d < |s.conns|
      ensures ConnOk(s', d)
    {
      assert ConnOk(s, d);
    }
  }

  /** A change that keeps which pool the connection holds keeps the pools' counts. */
  lemma PoolsCarryOver(s: State, s': State, c: nat)
    requires PoolsOk(s) && c < |s.conns|
    requires s'.pools == s.pools && s'.poolRefs == s.poolRefs
    requires |s'.conns| == |s.conns| && s'.conns == s.conns[c := s'.conns[c]]
    requires forall p: nat :: Holds(s'.conns[c], p) <==> Holds(s.conns[c], p)
    ensures PoolsOk(s')
  {
    hide Bag;
    forall p: nat | p < |s.pools|
      ensures PoolOk(s', p)
    {
      assert PoolOk(s, p);
      TotalUpdate(s.conns, c, s'.conns[c], HoldsWeight(p));
    }
  }

  lemma CopyConnKeepsInv(s: State, c: nat)
    requires Inv(s) && Enabled(s, CopyConn(c))
    ensures Inv(Step(s, CopyConn(c)))
  {
    hide ListsDisjoint, IsPooled, NamesOk, PoolsOk;
    var s' := Step(s, CopyConn(c));
    SameListsSamePooled(s, s');
    assert ConnOk(s, c);
    OthersCarryOver(s, s', c);
    RefNames(s);
    assert forall p: nat :: Holds(s'.conns[c], p) <==> Holds(s.conns[c], p);
    NamesCarryOver(s, s', c);
    PoolsCarryOver(s, s', c);
  }

  lemma RefNames(s: State)
    requires NamesOk(s)
    ensures forall c :: c in s.connRefs ==> c < |s.conns|
    ensures forall p :: p in s.poolRefs ==> p < |s.pools|
    ensures forall c, p: nat :: 0 <= c < |s.conns| && Holds(s.conns[c], p) ==> p < |s.pools|
  {
  }

  lemma SetRecyclableKeepsInv(s: State, c: nat, value: bool)
    requires Inv(s) && Enabled(s, SetRecyclable(c, value))
    ensures Inv(Step(s, SetRecyclable(c, value)))
  {
    hide ListsDisjoint, IsPooled, NamesOk, PoolsOk;
    var s' := Step(s, SetRecyclable(c, value));
    SameListsSamePooled(s, s');
    assert ConnOk(s, c);
    OthersCarryOver(s, s', c);
    RefNames(s);
    assert forall p: nat :: Holds(s'.conns[c], p) <==> Holds(s.conns[c], p);
    NamesCarryOver(s, s', c);
    PoolsCarryOver(s, s', c);
  }

  lemma ReleaseConnKeepsInv(s: State, c: nat)
    requires Inv(s) && Enabled(s, ReleaseConn(c))
    ensures Inv(Step(s, ReleaseConn(c)))
  {
    hide ListsDisjoint, IsPooled, NamesOk, PoolsOk;
    var s' := Step(s, ReleaseConn(c));
    SameListsSamePooled(s, s');
    assert ConnOk(s, c);
    OthersCarryOver(s, s', c);
    RefNames(s);
    assert forall p: nat :: Holds(s'.conns[c], p) <==> Holds(s.conns[c], p);
    NamesCarryOver(s, s', c);
    PoolsCarryOver(s, s', c);
  }

  /** A connection is deleted once: only one that is not yet deleted, and nothing brings it back. */
  lemma DeleteKeepsFreed(s: State, c: nat)
    requires FreedOk(s) && c < |s.conns| && !s.conns[c].stage.Deleted?
    ensures FreedOk(Delete(s, c))
  {
    assert c !in s.freed;
  }

  /** Dispose that recycles: the reference to the pool moves from the field to Dispose's local. */
  lemma RecycleKeepsInv(s: State, c: nat)
    requires Inv(s) && Enabled(s, Dispose(c)) && s.conns[c].pool.ToPool? && s.conns[c].recyclable
    ensures Inv(Step(s, Dispose(c)))
  {
    hide ListsDisjoint, IsPooled, NamesOk, PoolsOk;
    var s' := Step(s, Dispose(c));
    SameListsSamePooled(s, s');
    assert ConnOk(s, c);
    OthersCarryOver(s, s', c);
    RefNames(s);
    assert forall p: nat :: Holds(s'.conns[c], p) <==> Holds(s.conns[c], p);
    NamesCarryOver(s, s', c);
    PoolsCarryOver(s, s', c);
  }

  /** Handing a pool reference from a connection to a thread keeps the pools' counts. */
  lemma HandOverKeepsPools(s: State, s': State, c: nat, p: nat)
    requires PoolsOk(s) && c < |s.conns| && p < |s.pools|
    requires s'.pools == s.pools && s'.poolRefs == s.poolRefs + multiset{p}
    requires |s'.conns| == |s.conns| && s'.conns == s.conns[c := s'.conns[c]]
    requires forall q: nat :: Holds(s.conns[c], q) <==> q == p
    requires forall q: nat :: !Holds(s'.conns[c], q)
    ensures PoolsOk(s')
  {
    hide Bag;
    forall q: nat | q < |s.pools|
      ensures PoolOk(s', q)
    {
      assert PoolOk(s, q);
      TotalUpdate(s.conns, c, s'.conns[c], HoldsWeight(q));
    }
  }

  /** Dispose that deletes. */
  lemma DisposeKeepsInv(s: State, c: nat)
    requires Inv(s) && Enabled(s, Dispose(c)) && !(s.conns[c].pool.ToPool? && s.conns[c].recyclable)
    ensures Inv(Step(s, Dispose(c)))
  {
    hide ListsDisjoint, IsPooled, NamesOk, PoolsOk;
    var s' := Step(s, Dispose(c));
    SameListsSamePooled(s, s');
    assert ConnOk(s, c);
    OthersCarryOver(s, s', c);
    RefNames(s);
    DeleteKeepsFreed(s, c);
    if s.conns[c].pool.ToPool? {
      assert Holds(s.conns[c], s.conns[c].pool.pool);
      HandOverKeepsPools(s, s', c, s.conns[c].pool.pool);
    } else {
      PoolsCarryOver(s, s', c);
    }
    NamesCarryOver(s, s', c);
  }

  /** Put on a pool without room for any: the connection is deleted. */
  lemma PutRefusedKeepsInv(s: State, c: nat, now: int)
    requires Inv(s) && Enabled(s, Put(c, now)) && s.pools[s.conns[c].stage.pool].limit == 0
    ensures Inv(Step(s, Put(c, now)))
  {
    hide ListsDisjoint, IsPooled, NamesOk, PoolsOk;
    var s' := Step(s, Put(c, now));
    SameListsSamePooled(s, s');
    assert ConnOk(s, c);
    OthersCarryOver(s, s', c);
    RefNames(s);
    DeleteKeepsFreed(s, c);
    HandOverKeepsPools(s, s', c, s.conns[c].stage.pool);
    NamesCarryOver(s, s', c);
  }

  /** Assigning the back-pointer moves one reference in and one out. */
  lemma SetPoolKeepsPools(s: State, c: nat, target: PoolRef)
    requires PoolsOk(s) && c < |s.conns| && s.conns[c].stage.Live?
    requires target.ToPool? ==> target.pool < |s.pools| && target.pool in s.poolRefs
    ensures PoolsOk(SetPoolStep(s, c, target))
  {
    hide Bag;
    var s' := SetPoolStep(s, c, target);
    forall q: nat | q < |s.pools|
      ensures PoolOk(s', q)
    {
      assert PoolOk(s, q);
      TotalUpdate(s.conns, c, s'.conns[c], HoldsWeight(q));
    }
  }

  lemma SetPoolKeepsInv(s: State, c: nat, target: PoolRef)
    requires Inv(s) && Enabled(s, SetPool(c, target))
    ensures Inv(Step(s, SetPool(c, target)))
  {
    hide ListsDisjoint, IsPooled, NamesOk, PoolsOk;
    var s' := Step(s, SetPool(c, target));
    assert ConnOk(s, c);
    SetPoolKeepsPools(s, c, target);
    SameListsSamePooled(s, s');
    OthersCarryOver(s, s', c);
    RefNames(s);
    if s.conns[c].pool.ToPool? {
      assert Holds(s.conns[c], s.conns[c].pool.pool);
    }
    NamesCarryOver(s, s', c);
  }

  // ----- Put ----------------------------------------------------------------------------------------

  lemma HolderKeepsPool(s: State, c: nat, p: nat)
    requires PoolsOk(s) && c < |s.conns| && p < |s.pools| && Holds(s.conns[c], p)
    ensures !s.pools[p].deleted
  {
    assert PoolOk(s, p);
    TotalPositive(s.conns, HoldsWeight(p));
    assert HoldsWeight(p)(s.conns[c]) > 0;
  }

  lemma PushedBag(s: State, c: nat, now: int)
    requires Enabled(s, Put(c, now))
    ensures var p := s.conns[c].stage.pool;
      Bag(Push(s, c, now).pools[p].entries) == Bag(s.pools[p].entries) + multiset{c}
  {
    hide Bag;
    BagConcat(s.pools[s.conns[c].stage.pool].entries, [Entry(c, now)]);
    BagOne(Entry(c, now));
  }

  /** Only the pushed connection has become pooled. */
  lemma PushPooled(s: State, c: nat, now: int)
    requires Enabled(s, Put(c, now))
    ensures forall d: nat :: IsPooled(Push(s, c, now), d) <==> IsPooled(s, d) || d == c
  {
    hide Bag;
    var p := s.conns[c].stage.pool;
    var s' := Push(s, c, now);
    PushedBag(s, c, now);
    assert forall q :: 0 <= q < |s.pools| && q != p ==> s'.pools[q] == s.pools[q];
    forall d: nat
      ensures IsPooled(s', d) <==> IsPooled(s, d) || d == c
    {
      if IsPooled(s, d) || d == c {
        var q :| 0 <= q < |s.pools| && (d in Bag(s.pools[q].entries) || (d == c && q == p));
        assert d in Bag(s'.pools[q].entries);
      }
      if IsPooled(s', d) && d != c {
        var q :| 0 <= q < |s'.pools| && d in Bag(s'.pools[q].entries);
        assert d in Bag(s.pools[q].entries);
      }
    }
  }

  lemma PushDisjoint(s: State, c: nat, now: int)
    requires ListsDisjoint(s) && Enabled(s, Put(c, now)) && !IsPooled(s, c)
    ensures ListsDisjoint(Push(s, c, now))
  {
    hide Bag;
    var p := s.conns[c].stage.pool;
    var s' := Push(s, c, now);
    PushedBag(s, c, now);
    assert forall q :: 0 <= q < |s.pools| && q != p ==> s'.pools[q] == s.pools[q];
    assert forall q :: 0 <= q < |s.pools| ==> c !in Bag(s.pools[q].entries);
  }

  lemma PushPools(s: State, c: nat, now: int)
    requires PoolsOk(s) && Enabled(s, Put(c, now)) && !IsPooled(s, c) && s.conns[c].pool == NoPool
    ensures PoolsOk(Push(s, c, now))
  {
    hide Bag;
    var p := s.conns[c].stage.pool;
    var s' := Push(s, c, now);
    PushedBag(s, c, now);
    HolderKeepsPool(s, c, p);
    assert c !in Bag(s.pools[p].entries);
    forall q: nat | q < |s.pools|
      ensures PoolOk(s', q)
    {
      assert PoolOk(s, q);
      TotalUpdate(s.conns, c, s'.conns[c], HoldsWeight(q));
    }
  }

  lemma PushNames(s: State, c: nat, now: int)
    requires NamesOk(s) && Enabled(s, Put(c, now)) && s.conns[c].pool == NoPool
    ensures NamesOk(Push(s, c, now))
  {
    hide Bag;
    var p := s.conns[c].stage.pool;
    var s' := Push(s, c, now);
    PushedBag(s, c, now);
    forall d, q: nat | 0 <= d < |s'.conns| && Holds(s'.conns[d], q)
      ensures q < |s'.pools|
    {
      if d != c {
        assert Holds(s.conns[d], q);
      }
    }
  }

  /** The connection that came back is pooled, with one reference and no back-pointer. */
  lemma PushKeepsInv(s: State, c: nat, now: int)
    requires Inv(s) && Enabled(s, Put(c, now))
    ensures Inv(Push(s, c, now))
  {
    hide ListsDisjoint, IsPooled, NamesOk, PoolsOk, Bag;
    var s' := Push(s, c, now);
    assert ConnOk(s, c);
    PushPooled(s, c, now);
    PushDisjoint(s, c, now);
    PushPools(s, c, now);
    PushNames(s, c, now);
    forall d: nat | d < |s.conns|
      ensures ConnOk(s', d)
    {
      assert ConnOk(s, d);
    }
  }

  lemma PutKeepsInv(s: State, c: nat, now: int)
    requires Inv(s) && Enabled(s, Put(c, now)) && s.pools[s.conns[c].stage.pool].limit > 0
    ensures Inv(Step(s, Put(c, now)))
  {
    hide Inv, Bag, PutEntries;
    var p := s.conns[c].stage.pool;
    var pool := s.pools[p];
    var pushed := Push(s, c, now);
    PushKeepsInv(s, c, now);
    PutConserves(pool.entries, pool.limit, pool.lifeTime, AConn(c), now);
    PutAlive(s, c, now);
    MoveOutKeepsInv(pushed, p, PutEntries(pool.entries, pool.limit, pool.lifeTime, AConn(c), now).entries,
                    Bag(PutEntries(pool.entries, pool.limit, pool.lifeTime, AConn(c), now).garbage));
  }

  lemma PutAlive(s: State, c: nat, now: int)
    requires Inv(s) && Enabled(s, Put(c, now))
    ensures !s.pools[s.conns[c].stage.pool].deleted
  {
    HolderKeepsPool(s, c, s.conns[c].stage.pool);
  }
}
