/** The steps on pools keep the invariant. */
module PoolSteps {
  import opened Totals
  import opened ConnectionPool
  import opened Connections
  import opened ConnectionLists
  import opened ConnectionSteps

  // ----- Steps on pools -----------------------------------------------------------------------------

  lemma ReferencedPoolLives(s: State, p: nat)
    requires PoolsOk(s) && p < |s.pools| && p in s.poolRefs
    ensures !s.pools[p].deleted && s.pools[p].refs >= 1
  {
    assert PoolOk(s, p);
  }

  lemma ListStepKeepsInv(s: State, a: Action)
    requires Inv(s) && Enabled(s, a) && (a.Get? || a.Gc? || a.Clear?)
    ensures Inv(Step(s, a))
  {
    hide Bag, GetEntries, PutEntries, ConnsOk, PoolsOk, ListsDisjoint, NamesOk, FreedOk;
    var pool := s.pools[a.p];
    ReferencedPoolLives(s, a.p);
    BagEmpty();
    match a
    case Get(p, now) =>
      GetConserves(pool.entries, pool.limit, pool.lifeTime, now);
      var got := GetEntries(pool.entries, pool.limit, pool.lifeTime, now);
      MoveOutKeepsInv(s, p, got.entries, Bag(got.garbage) + if got.conn.AConn? then multiset{got.conn.conn} else multiset{});
    case Gc(p, now) =>
      PutConserves(pool.entries, pool.limit, pool.lifeTime, NoConn, now);
      var out := PutEntries(pool.entries, pool.limit, pool.lifeTime, NoConn, now);
      MoveOutKeepsInv(s, p, out.entries, Bag(out.garbage));
    case Clear(p) =>
      assert Bag([]) + Bag(pool.entries) == Bag(pool.entries);
      MoveOutKeepsInv(s, p, [], Bag(pool.entries));
  }

  /** A thread gives up a reference; a pool that loses its last one has an empty list and is deleted. */
  function DropPool(s: State, p: nat): State
    requires p < |s.pools|
  {
    var left := s.pools[p].refs - 1;
    s.(pools := s.pools[p := s.pools[p].(refs := left, deleted := left == 0 || s.pools[p].deleted)],
       poolRefs := s.poolRefs - multiset{p})
  }

  lemma DropPoolKeepsInv(s: State, p: nat)
    requires Inv(s) && p in s.poolRefs && p < |s.pools| && (s.pools[p].refs == 1 ==> s.pools[p].entries == [])
    ensures Inv(DropPool(s, p))
  {
    hide Bag, ListsDisjoint, IsPooled;
    var s' := DropPool(s, p);
    SameListsSamePooled(s, s');
    forall q: nat | q < |s.pools|
      ensures PoolOk(s', q)
    {
      assert PoolOk(s, q);
    }
    forall c: nat | c < |s.conns|
      ensures ConnOk(s', c)
    {
      assert ConnOk(s, c);
    }
  }

  lemma ReleasePoolKeepsInv(s: State, p: nat)
    requires Inv(s) && Enabled(s, ReleasePool(p))
    ensures Inv(Step(s, ReleasePool(p)))
  {
    hide Bag, ConnsOk, PoolsOk, ListsDisjoint, NamesOk, FreedOk;
    ReferencedPoolLives(s, p);
    if s.pools[p].refs == 1 {
      BagEmpty();
      assert Bag([]) + Bag(s.pools[p].entries) == Bag(s.pools[p].entries);
      var emptied := MoveOut(s, p, [], Bag(s.pools[p].entries));
      MoveOutKeepsInv(s, p, [], Bag(s.pools[p].entries));
      DropPoolKeepsInv(emptied, p);
      assert Step(s, ReleasePool(p)) == DropPool(emptied, p);
    } else {
      DropPoolKeepsInv(s, p);
      assert Step(s, ReleasePool(p)) == DropPool(s, p);
    }
  }

  lemma CopyPoolKeepsInv(s: State, p: nat)
    requires Inv(s) && Enabled(s, CopyPool(p))
    ensures Inv(Step(s, CopyPool(p)))
  {
    hide Bag, ListsDisjoint, IsPooled;
    var s' := Step(s, CopyPool(p));
    SameListsSamePooled(s, s');
    ReferencedPoolLives(s, p);
    forall q: nat | q < |s.pools|
      ensures PoolOk(s', q)
    {
      assert PoolOk(s, q);
    }
    forall c: nat | c < |s.conns|
      ensures ConnOk(s', c)
    {
      assert ConnOk(s, c);
    }
  }

  lemma NobodyHoldsNewPool(s: State)
    requires NamesOk(s)
    ensures Total(s.conns, HoldsWeight(|s.pools|)) == 0
  {
    TotalPositive(s.conns, HoldsWeight(|s.pools|));
  }

  /** A new pool's list is empty. */
  lemma CreatePoolPooled(s: State, a: Action)
    requires ListsDisjoint(s) && a.CreatePool?
    ensures ListsDisjoint(Step(s, a))
    ensures forall c: nat :: IsPooled(Step(s, a), c) <==> IsPooled(s, c)
  {
    hide Bag;
    var s' := Step(s, a);
    BagEmpty();
    assert forall p :: 0 <= p < |s.pools| ==> s'.pools[p] == s.pools[p];
    forall c: nat
      ensures IsPooled(s', c) <==> IsPooled(s, c)
    {
      if IsPooled(s, c) {
        var p :| 0 <= p < |s.pools| && c in Bag(s.pools[p].entries);
        assert c in Bag(s'.pools[p].entries);
      }
      if IsPooled(s', c) {
        var p :| 0 <= p < |s'.pools| && c in Bag(s'.pools[p].entries);
        assert c in Bag(s.pools[p].entries);
      }
    }
  }

  lemma CreatePoolKeepsInv(s: State, a: Action)
    requires Inv(s) && a.CreatePool?
    ensures Inv(Step(s, a))
  {
    hide Bag, ListsDisjoint, IsPooled;
    var s' := Step(s, a);
    CreatePoolPooled(s, a);
    NobodyHoldsNewPool(s);
    BagEmpty();
    forall q: nat | q < |s'.pools|
      ensures PoolOk(s', q)
    {
      if q < |s.pools| {
        assert PoolOk(s, q);
      }
    }
    forall c: nat | c < |s.conns|
      ensures ConnOk(s', c)
    {
      assert ConnOk(s, c);
    }
  }

  lemma ConnectKeepsInv(s: State)
    requires Inv(s)
    ensures Inv(Step(s, Connect))
  {
    hide Bag, ListsDisjoint;
    var s' := Step(s, Connect);
    SameListsSamePooled(s, s');
    forall q: nat | q < |s.pools|
      ensures PoolOk(s', q)
    {
      assert PoolOk(s, q);
      TotalAppend(s.conns, Conn(1, NoPool, false, Live), HoldsWeight(q));
    }
    forall c: nat | c < |s'.conns|
      ensures ConnOk(s', c)
    {
      if c < |s.conns| {
        assert ConnOk(s, c);
      }
    }
  }

  lemma StepKeepsInv(s: State, a: Action)
    requires Inv(s) && Enabled(s, a)
    ensures Inv(Step(s, a))
  {
    hide Inv, Step;
    match a
    case CreatePool(_, _) => CreatePoolKeepsInv(s, a);
    case CopyPool(p) => CopyPoolKeepsInv(s, p);
    case ReleasePool(p) => ReleasePoolKeepsInv(s, p);
    case Connect => ConnectKeepsInv(s);
    case Get(_, _) => ListStepKeepsInv(s, a);
    case SetPool(c, target) => SetPoolKeepsInv(s, c, target);
    case SetRecyclable(c, value) => SetRecyclableKeepsInv(s, c, value);
    case CopyConn(c) => CopyConnKeepsInv(s, c);
    case ReleaseConn(c) => ReleaseConnKeepsInv(s, c);
    case Dispose(c) =>
      if s.conns[c].pool.ToPool? && s.conns[c].recyclable {
        RecycleKeepsInv(s, c);
      } else {
        DisposeKeepsInv(s, c);
      }
    case Put(c, now) =>
      if s.pools[s.conns[c].stage.pool].limit == 0 {
        PutRefusedKeepsInv(s, c, now);
      } else {
        PutKeepsInv(s, c, now);
      }
    case Gc(_, _) => ListStepKeepsInv(s, a);
    case Clear(_) => ListStepKeepsInv(s, a);
  }
}
