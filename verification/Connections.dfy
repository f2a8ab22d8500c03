/** Reference-counted connections and the pool they return to: base/ref_counted.h, db/backend/db_connection.cc
    and db/common/connection_pool.cc together.

    A step is one atomic piece of an operation, so that threads interleave between a count reaching zero, the
    Dispose that follows, the Put under the pool's lock, and the release of what the pool threw out. The
    references held by scoped_ref_ptr variables, temporaries and garbage lists are counted in two multisets;
    moving or swapping such pointers changes nothing here. */
module Connections {
  import opened Totals
  import opened ConnectionPool

  datatype PoolRef = NoPool | ToPool(pool: nat)

  datatype Stage =
    | Live
    | Disposing             // the count has reached zero, Dispose has not run
    | Returning(pool: nat)  // Dispose is about to call Put on the pool it still references
    | Deleted

  datatype Conn = Conn(refs: int, pool: PoolRef, recyclable: bool, stage: Stage)

  datatype PoolObject = PoolObject(refs: int, limit: nat, lifeTime: int, entries: seq<Entry>, deleted: bool)

  datatype State = State(
    conns: seq<Conn>,
    pools: seq<PoolObject>,
    connRefs: multiset<nat>,   // references to connections outside the pools
    poolRefs: multiset<nat>,   // references to pools other than the connections' own
    freed: seq<nat>)           // connections deleted, in order

  const INIT := State([], [], multiset{}, multiset{}, [])

  // ----- Steps --------------------------------------------------------------------------------------

  datatype Action =
    | CreatePool(limit: nat, lifeTime: int)
    | CopyPool(p: nat)
    | ReleasePool(p: nat)
    | Connect                         // connector->Connect()
    | Get(p: nat, now: int)
    | SetPool(c: nat, target: PoolRef)
    | SetRecyclable(c: nat, value: bool)
    | CopyConn(c: nat)
    | ReleaseConn(c: nat)
    | Dispose(c: nat)
    | Put(c: nat, now: int)
    | Gc(p: nat, now: int)
    | Clear(p: nat)

  /** The connections named in a list. */
  function Names(es: seq<Entry>): seq<nat> {
    seq(|es|, i requires 0 <= i < |es| => es[i].conn)
  }

  ghost function Bag(es: seq<Entry>): multiset<nat> {
    multiset(Names(es))
  }

  /** A thread can only use a connection or a pool it holds a reference to. */
  predicate Enabled(s: State, a: Action) {
    match a
    case CreatePool(_, _) => true
    case CopyPool(p) => p in s.poolRefs && p < |s.pools|
    case ReleasePool(p) => p in s.poolRefs && p < |s.pools|
    case Connect => true
    case Get(p, _) => p in s.poolRefs && p < |s.pools|
    case SetPool(c, target) =>
      c in s.connRefs && c < |s.conns| && (target.ToPool? ==> target.pool in s.poolRefs && target.pool < |s.pools|)
    case SetRecyclable(c, _) => c in s.connRefs && c < |s.conns|
    case CopyConn(c) => c in s.connRefs && c < |s.conns|
    case ReleaseConn(c) => c in s.connRefs && c < |s.conns|
    case Dispose(c) => c < |s.conns| && s.conns[c].stage == Disposing
    case Put(c, _) => c < |s.conns| && s.conns[c].stage.Returning? && s.conns[c].stage.pool < |s.pools|
    case Gc(p, _) => p in s.poolRefs && p < |s.pools|
    case Clear(p) => p in s.poolRefs && p < |s.pools|
  }

  /** Entries leave a pool's list; the references they held now belong to a thread. */
  ghost function MoveOut(s: State, p: nat, kept: seq<Entry>, moved: multiset<nat>): State
    requires p < |s.pools|
  {
    s.(pools := s.pools[p := s.pools[p].(entries := kept)], connRefs := s.connRefs + moved)
  }

  function AddPoolRef(s: State, p: nat, n: int): State
    requires p < |s.pools|
  {
    s.(pools := s.pools[p := s.pools[p].(refs := s.pools[p].refs + n)])
  }

  function AddConnRef(s: State, c: nat, n: int): State
    requires c < |s.conns|
  {
    s.(conns := s.conns[c := s.conns[c].(refs := s.conns[c].refs + n)])
  }

  /** Release of a pool reference; at zero the pool is deleted and its list's references are released in turn. */
  ghost function ReleasePoolStep(s: State, p: nat): State
    requires p < |s.pools|
  {
    var left := AddPoolRef(s, p, -1).(poolRefs := s.poolRefs - multiset{p});
    if left.pools[p].refs == 0
    then MoveOut(left.(pools := left.pools[p := left.pools[p].(deleted := true)]), p, [], Bag(s.pools[p].entries))
    else left
  }

  ghost function GetStep(s: State, p: nat, now: int): State
    requires p < |s.pools|
  {
    var pool := s.pools[p];
    var got := GetEntries(pool.entries, pool.limit, pool.lifeTime, now);
    MoveOut(s, p, got.entries, Bag(got.garbage) + if got.conn.AConn? then multiset{got.conn.conn} else multiset{})
  }

  /** connection_pool_ = target: the new pool gains a reference, the old one's is left to be released. */
  function SetPoolStep(s: State, c: nat, target: PoolRef): State
    requires c < |s.conns| && (target.ToPool? ==> target.pool < |s.pools|)
  {
    var was := s.conns[c].pool;
    var linked := if target.ToPool? then AddPoolRef(s, target.pool, 1) else s;
    linked.(conns := s.conns[c := s.conns[c].(pool := target)],
            poolRefs := if was.ToPool? then s.poolRefs + multiset{was.pool} else s.poolRefs)
  }

  function ReleaseConnStep(s: State, c: nat): State
    requires c < |s.conns|
  {
    var x := s.conns[c].(refs := s.conns[c].refs - 1);
    s.(conns := s.conns[c := if x.refs == 0 then x.(stage := Disposing) else x],
       connRefs := s.connRefs - multiset{c})
  }

  /** `delete self` */
  function Delete(s: State, c: nat): State
    requires c < |s.conns|
  {
    s.(conns := s.conns[c := s.conns[c].(stage := Deleted)], freed := s.freed + [c])
  }

  /** DBConnection::Dispose up to the call of Put: recycle if there is a pool and the flag is set. */
  function DisposeStep(s: State, c: nat): State
    requires c < |s.conns|
  {
    var x := s.conns[c].(pool := NoPool);
    match s.conns[c].pool
    case NoPool => Delete(s.(conns := s.conns[c := x]), c)
    case ToPool(p) =>
      if x.recyclable then s.(conns := s.conns[c := x.(stage := Returning(p))])
      else Delete(s.(conns := s.conns[c := x], poolRefs := s.poolRefs + multiset{p}), c)
  }

  /** The connection is in the list again, with the list's reference only. */
  function Push(s: State, c: nat, now: int): State
    requires c < |s.conns| && s.conns[c].stage.Returning? && s.conns[c].stage.pool < |s.pools|
  {
    var p := s.conns[c].stage.pool;
    s.(conns := s.conns[c := s.conns[c].(refs := 1, stage := Live)],
       pools := s.pools[p := s.pools[p].(entries := s.pools[p].entries + [Entry(c, now)])],
       poolRefs := s.poolRefs + multiset{p})
  }

  ghost function PutStep(s: State, c: nat, now: int): State
    requires c < |s.conns| && s.conns[c].stage.Returning? && s.conns[c].stage.pool < |s.pools|
  {
    var p := s.conns[c].stage.pool;
    var pool := s.pools[p];
    if pool.limit == 0 then Delete(s.(poolRefs := s.poolRefs + multiset{p}), c)
    else
      var out := PutEntries(pool.entries, pool.limit, pool.lifeTime, AConn(c), now);
      MoveOut(Push(s, c, now), p, out.entries, Bag(out.garbage))
  }

  ghost function GcStep(s: State, p: nat, now: int): State
    requires p < |s.pools|
  {
    var pool := s.pools[p];
    var out := PutEntries(pool.entries, pool.limit, pool.lifeTime, NoConn, now);
    MoveOut(s, p, out.entries, Bag(out.garbage))
  }

  ghost function Step(s: State, a: Action): State
    requires Enabled(s, a)
  {
    match a
    case CreatePool(limit, lifeTime) =>
      s.(pools := s.pools + [PoolObject(1, limit, lifeTime, [], false)], poolRefs := s.poolRefs + multiset{|s.pools|})
    case CopyPool(p) => AddPoolRef(s, p, 1).(poolRefs := s.poolRefs + multiset{p})
    case ReleasePool(p) => ReleasePoolStep(s, p)
    case Connect =>
      s.(conns := s.conns + [Conn(1, NoPool, false, Live)], connRefs := s.connRefs + multiset{|s.conns|})
    case Get(p, now) => GetStep(s, p, now)
    case SetPool(c, target) => SetPoolStep(s, c, target)
    case SetRecyclable(c, value) => s.(conns := s.conns[c := s.conns[c].(recyclable := value)])
    case CopyConn(c) => AddConnRef(s, c, 1).(connRefs := s.connRefs + multiset{c})
    case ReleaseConn(c) => ReleaseConnStep(s, c)
    case Dispose(c) => DisposeStep(s, c)
    case Put(c, now) => PutStep(s, c, now)
    case Gc(p, now) => GcStep(s, p, now)
    case Clear(p) => MoveOut(s, p, [], Bag(s.pools[p].entries))
  }

  // ----- The invariant ------------------------------------------------------------------------------

  ghost predicate IsPooled(s: State, c: nat) {
    exists p :: 0 <= p < |s.pools| && c in Bag(s.pools[p].entries)
  }

  /** A pooled connection has the list's reference only and no back-pointer; any other live one is counted by the
      references outside; one being disposed of or deleted is referenced by nobody. */
  ghost predicate ConnOk(s: State, c: nat)
    requires c < |s.conns|
  {
    var x := s.conns[c];
    if x.stage.Live? then
      if IsPooled(s, c) then x.refs == 1 && s.connRefs[c] == 0 && x.pool == NoPool
      else x.refs == s.connRefs[c] && x.refs >= 1
    else x.refs == 0 && s.connRefs[c] == 0 && !IsPooled(s, c) && (!x.stage.Disposing? ==> x.pool == NoPool)
  }

  ghost predicate ConnsOk(s: State) {
    forall c :: 0 <= c < |s.conns| ==> ConnOk(s, c)
  }

  /** The connection holds a reference to the pool, in its field or in Dispose's local. */
  predicate Holds(x: Conn, p: nat) {
    x.pool == ToPool(p) || x.stage == Returning(p)
  }

  function HoldsWeight(p: nat): Conn -> nat {
    (x: Conn) => if Holds(x, p) then 1 else 0
  }

  ghost predicate PoolOk(s: State, p: nat)
    requires p < |s.pools|
  {
    var pool := s.pools[p];
    && pool.refs == s.poolRefs[p] + Total(s.conns, HoldsWeight(p))
    && (pool.deleted <==> pool.refs == 0)
    && (pool.deleted ==> pool.entries == [])
    && forall c :: Bag(pool.entries)[c] <= 1
  }

  ghost predicate PoolsOk(s: State) {
    forall p :: 0 <= p < |s.pools| ==> PoolOk(s, p)
  }

  /** No connection is in two lists. */
  ghost predicate ListsDisjoint(s: State) {
    forall p, q, c :: 0 <= p < |s.pools| && 0 <= q < |s.pools| && c in Bag(s.pools[p].entries) && c in Bag(s.pools[q].entries) ==> p == q
  }

  ghost predicate NamesOk(s: State) {
    && (forall c :: c in s.connRefs ==> c < |s.conns|)
    && (forall p :: p in s.poolRefs ==> p < |s.pools|)
    && (forall p, c :: 0 <= p < |s.pools| && c in Bag(s.pools[p].entries) ==> c < |s.conns|)
    && (forall c, p: nat :: 0 <= c < |s.conns| && Holds(s.conns[c], p) ==> p < |s.pools|)
  }

  ghost predicate FreedOk(s: State) {
    && (forall i, j :: 0 <= i < j < |s.freed| ==> s.freed[i] != s.freed[j])
    && (forall c :: c in s.freed ==> c < |s.conns|)
    && (forall c :: 0 <= c < |s.conns| ==> (c in s.freed <==> s.conns[c].stage.Deleted?))
  }

  ghost predicate Inv(s: State) {
    ConnsOk(s) && PoolsOk(s) && ListsDisjoint(s) && NamesOk(s) && FreedOk(s)
  }
}
