/** What holds of connections and pools over whole runs. */
module ConnectionRuns {
  import opened Totals
  import opened ConnectionPool
  import opened Connections
  import opened ConnectionLists
  import opened ConnectionSteps
  import opened PoolSteps

  // ----- Over whole runs ----------------------------------------------------------------------------

  ghost predicate IsRun(actions: seq<Action>, states: seq<State>) {
    && |states| == |actions| + 1
    && states[0] == INIT
    && forall i :: 0 <= i < |actions| ==> Enabled(states[i], actions[i]) && states[i + 1] == Step(states[i], actions[i])
  }

  lemma {:induction false} RunKeepsInv(actions: seq<Action>, states: seq<State>, n: nat)
    requires IsRun(actions, states) && n < |states|
    ensures Inv(states[n])
  {
    hide Step, Enabled;
    if n > 0 {
      RunKeepsInv(actions, states, n - 1);
      assert Enabled(states[n - 1], actions[n - 1]);
      StepKeepsInv(states[n - 1], actions[n - 1]);
    }
  }

  /** In every reachable state: a pooled connection is live, has exactly one reference and no back-pointer, so that
      no cycle of pool and connection forms; a connection's pool is not deleted; a deleted connection is neither
      pooled nor referenced; and no connection is deleted twice. */
  lemma ConnectionLifecycle(actions: seq<Action>, states: seq<State>, n: nat)
    requires IsRun(actions, states) && n < |states|
    ensures forall c: nat :: IsPooled(states[n], c) ==>
              && c < |states[n].conns| && states[n].conns[c].stage.Live?
              && states[n].conns[c].refs == 1 && states[n].connRefs[c] == 0 && states[n].conns[c].pool == NoPool
    ensures forall c: nat, p: nat :: c < |states[n].conns| && Holds(states[n].conns[c], p) ==>
              p < |states[n].pools| && !states[n].pools[p].deleted
    ensures forall c: nat :: c < |states[n].conns| && states[n].conns[c].stage.Deleted? ==>
              states[n].connRefs[c] == 0 && !IsPooled(states[n], c)
    ensures forall i, j :: 0 <= i < j < |states[n].freed| ==> states[n].freed[i] != states[n].freed[j]
  {
    hide Bag, Step, Enabled;
    var s := states[n];
    RunKeepsInv(actions, states, n);
    forall c: nat | IsPooled(s, c)
      ensures c < |s.conns| && s.conns[c].stage.Live? && s.conns[c].refs == 1 && s.connRefs[c] == 0 && s.conns[c].pool == NoPool
    {
      var p :| 0 <= p < |s.pools| && c in Bag(s.pools[p].entries);
      assert ConnOk(s, c);
    }
    forall c: nat, p: nat | c < |s.conns| && Holds(s.conns[c], p)
      ensures p < |s.pools| && !s.pools[p].deleted
    {
      HolderKeepsPool(s, c, p);
    }
    forall c: nat | c < |s.conns| && s.conns[c].stage.Deleted?
      ensures s.connRefs[c] == 0 && !IsPooled(s, c)
    {
      assert ConnOk(s, c);
    }
  }

  /** Nothing leaks: when no reference is left outside and every Dispose has run its course, every pool and every
      connection has been deleted. */
  lemma NothingLeaks(actions: seq<Action>, states: seq<State>, n: nat)
    requires IsRun(actions, states) && n < |states|
    requires states[n].connRefs == multiset{} && states[n].poolRefs == multiset{}
    requires forall c :: 0 <= c < |states[n].conns| ==> states[n].conns[c].stage.Live? || states[n].conns[c].stage.Deleted?
    ensures forall p :: 0 <= p < |states[n].pools| ==> states[n].pools[p].deleted
    ensures forall c :: 0 <= c < |states[n].conns| ==> states[n].conns[c].stage.Deleted? && c in states[n].freed
  {
    hide Step, Enabled;
    var s := states[n];
    RunKeepsInv(actions, states, n);
    forall p: nat | p < |s.pools|
      ensures s.pools[p].deleted
    {
      assert PoolOk(s, p);
      TotalPositive(s.conns, HoldsWeight(p));
      forall i | 0 <= i < |s.conns|
        ensures HoldsWeight(p)(s.conns[i]) == 0
      {
        assert ConnOk(s, i);
      }
    }
    assert forall p :: 0 <= p < |s.pools| ==> PoolOk(s, p) && s.pools[p].entries == [];
    BagEmpty();
    forall c: nat | c < |s.conns|
      ensures s.conns[c].stage.Deleted?
    {
      assert ConnOk(s, c);
      assert !IsPooled(s, c);
    }
  }

  /** Assignment adds the new reference before it releases the old one, so assigning a pointer to itself never
      lets the count reach zero and changes nothing. */
  lemma SelfAssignmentIsHarmless(s: State, c: nat)
    requires Inv(s) && Enabled(s, CopyConn(c))
    ensures Enabled(Step(s, CopyConn(c)), ReleaseConn(c))
    ensures Step(Step(s, CopyConn(c)), ReleaseConn(c)) == s
  {
    assert ConnOk(s, c);
    var x := s.conns[c];
    assert s.conns[c := x.(refs := x.refs + 1)][c := x] == s.conns;
    assert s.connRefs + multiset{c} - multiset{c} == s.connRefs;
  }

  /** In the other order the object would be lost: releasing the only reference starts its disposal. */
  lemma ReleaseFirstWouldDispose(s: State, c: nat)
    requires Inv(s) && Enabled(s, ReleaseConn(c)) && s.connRefs[c] == 1
    ensures Step(s, ReleaseConn(c)).conns[c].stage == Disposing && !Enabled(Step(s, ReleaseConn(c)), CopyConn(c))
  {
    assert ConnOk(s, c);
  }

  // ----- What becomes of a connection ---------------------------------------------------------------

  /** Dispose deletes a connection exactly when it has no pool or is not marked recyclable; any other is on its way
      back to its pool. Either way it has forgotten the pool. */
  lemma DisposeDecides(actions: seq<Action>, states: seq<State>, i: nat, c: nat)
    requires IsRun(actions, states) && i < |actions| && actions[i] == Dispose(c)
    ensures c < |states[i].conns| == |states[i + 1].conns|
    ensures var x, x' := states[i].conns[c], states[i + 1].conns[c];
      && x'.pool == NoPool
      && (c in states[i + 1].freed <==> !(x.pool.ToPool? && x.recyclable))
      && (x.pool.ToPool? && x.recyclable ==> x'.stage == Returning(x.pool.pool))
  {
    hide Bag;
    RunKeepsInv(actions, states, i);
    assert states[i + 1] == Step(states[i], actions[i]);
    assert states[i].conns[c].stage == Disposing;
  }

  /** A recyclable connection of a pool with a positive limit and a life time that is not negative is, after Dispose
      and Put, the last entry of that pool's list: live, with the list's reference only, and not deleted. */
  lemma RecycledIsPooled(s: State, c: nat, p: nat, now: int)
    requires Inv(s) && Enabled(s, Dispose(c)) && s.conns[c].pool == ToPool(p) && s.conns[c].recyclable
    requires p < |s.pools| && s.pools[p].limit > 0 && s.pools[p].lifeTime >= 0
    ensures var d := Step(s, Dispose(c));
      && Enabled(d, Put(c, now))
      && var s' := Step(d, Put(c, now));
      && |s'.pools[p].entries| > 0 && s'.pools[p].entries[|s'.pools[p].entries| - 1] == Entry(c, now)
      && s'.conns[c].stage == Live && s'.conns[c].refs == 1 && s'.conns[c].pool == NoPool && c !in s'.freed
  {
    hide Bag, PutEntries;
    PutIsLast(s.pools[p].entries, s.pools[p].limit, s.pools[p].lifeTime, c, now);
  }

  /** A pool without room for any deletes what is returned to it. */
  lemma NoRoomDeletes(s: State, c: nat, now: int)
    requires Enabled(s, Put(c, now)) && s.pools[s.conns[c].stage.pool].limit == 0
    ensures c in Step(s, Put(c, now)).freed
  {
  }

  /** A new connection has one reference, no pool, and is not recyclable; a new pool has the limit and the life time it
      was given; the flag is what was last set, and setting
      it or the pool changes nothing else about the connection. */
  lemma ObjectFields(s: State, c: nat, value: bool, target: PoolRef, limit: nat, lifeTime: int)
    ensures var s' := Step(s, Connect); s'.conns[|s.conns|] == Conn(1, NoPool, false, Live)
    ensures Step(s, CreatePool(limit, lifeTime)).pools == s.pools + [PoolObject(1, limit, lifeTime, [], false)]
    ensures Enabled(s, SetRecyclable(c, value)) ==>
              Step(s, SetRecyclable(c, value)).conns == s.conns[c := s.conns[c].(recyclable := value)]
    ensures Enabled(s, SetPool(c, target)) ==>
              Step(s, SetPool(c, target)).conns == s.conns[c := s.conns[c].(pool := target)]
  {
  }

  /** Clear empties the list, a collection leaves the unexpired entries of a sorted one, and get takes the most recent
      of them; whatever leaves the list is then referenced by the thread. */
  lemma ListSteps(s: State, p: nat, now: int)
    requires p in s.poolRefs && p < |s.pools| && s.pools[p].limit > 0 && |s.pools[p].entries| <= s.pools[p].limit
    requires Sorted(s.pools[p].entries) && NotAfter(s.pools[p].entries, now)
    ensures var good := Unexpired(s.pools[p].entries, s.pools[p].lifeTime, now);
      var cleared, swept, got := Step(s, Clear(p)), Step(s, Gc(p, now)), Step(s, Get(p, now));
      && cleared.pools[p].entries == [] && cleared.connRefs == s.connRefs + Bag(s.pools[p].entries)
      && swept.pools[p].entries == good
      && swept.connRefs + Bag(good) == s.connRefs + Bag(s.pools[p].entries)
      && got.pools[p].entries == (if good == [] then [] else good[..|good| - 1])
      && got.connRefs + Bag(got.pools[p].entries) == s.connRefs + Bag(s.pools[p].entries)
      && (good != [] ==> good[|good| - 1].conn in got.connRefs)
  {
    hide Bag, Unexpired, PutEntries, GetEntries;
    var pool := s.pools[p];
    PutKeepsMostRecent(pool.entries, pool.limit, pool.lifeTime, NoConn, now);
    UnexpiredNoLonger(pool.entries, pool.lifeTime, now);
    PutConserves(pool.entries, pool.limit, pool.lifeTime, NoConn, now);
    GetIsMostRecent(pool.entries, pool.limit, pool.lifeTime, now);
    GetConserves(pool.entries, pool.limit, pool.lifeTime, now);
  }
}
