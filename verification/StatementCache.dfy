/** The cache of prepared statements, DBStatementCache::Data in db/backend/db_statement.cc: a map and a recency
    list that point into each other, and the plain recency list they stand for. */
module StatementCache {

  /** A statement is told apart from others with the same text by its serial number. */
  datatype Statement = Statement(query: string, serial: nat)

  datatype MaybeStatement = NoStatement | AStatement(statement: Statement)

  // ----- The recency list ---------------------------------------------------------------------------

  /** Most recently inserted first. */
  type Recency = seq<Statement>

  predicate HasQuery(r: Recency, query: string) {
    exists i :: 0 <= i < |r| && r[i].query == query
  }

  predicate DistinctQueries(r: Recency) {
    forall i, j :: 0 <= i < j < |r| ==> r[i].query != r[j].query
  }

  function Without(r: Recency, query: string): Recency {
    if r == [] then [] else (if r[0].query == query then [] else [r[0]]) + Without(r[1..], query)
  }

  function Lookup(r: Recency, query: string): MaybeStatement {
    if r == [] then NoStatement else if r[0].query == query then AStatement(r[0]) else Lookup(r[1..], query)
  }

  function Inserted(r: Recency, maxSize: nat, st: Statement): Recency {
    if HasQuery(r, st.query) then [st] + Without(r, st.query)
    else if |r| > 0 && |r| >= maxSize then [st] + r[..|r| - 1]
    else [st] + r
  }

  function Capacity(maxSize: nat): nat { if maxSize == 0 then 1 else maxSize }

  lemma {:induction false} WithoutIndex(r: Recency, query: string, k: nat)
    requires DistinctQueries(r) && k < |r| && r[k].query == query
    ensures Without(r, query) == r[..k] + r[k + 1..]
    decreases |r|
  {
    if k == 0 {
      WithoutAbsent(r[1..], query);
    } else {
      WithoutIndex(r[1..], query, k - 1);
      assert r[..k] == [r[0]] + r[1..][..k - 1];
      assert r[k + 1..] == r[1..][k..];
    }
  }

  lemma {:induction false} WithoutAbsent(r: Recency, query: string)
    requires forall i :: 0 <= i < |r| ==> r[i].query != query
    ensures Without(r, query) == r
    decreases |r|
  {
    if r != [] {
      WithoutAbsent(r[1..], query);
    }
  }

  lemma {:induction false} LookupIndex(r: Recency, query: string, k: nat)
    requires DistinctQueries(r) && k < |r| && r[k].query == query
    ensures Lookup(r, query) == AStatement(r[k])
    decreases |r|
  {
    if k > 0 {
      LookupIndex(r[1..], query, k - 1);
    }
  }

  lemma {:induction false} LookupAbsent(r: Recency, query: string)
    requires !HasQuery(r, query)
    ensures Lookup(r, query) == NoStatement
    decreases |r|
  {
    if r != [] {
      assert r[0].query != query;
      forall i | 0 <= i < |r[1..]|
        ensures r[1..][i].query != query
      {
        assert r[1..][i] == r[i + 1];
      }
      LookupAbsent(r[1..], query);
    }
  }

  // ----- The map and the list -----------------------------------------------------------------------

  /** A list node: its address, and the map entry its iterator points at. */
  datatype Node = Node(address: nat, key: string)

  /** A map entry: the statement, and the list node its iterator points at. */
  datatype Entry = Entry(statement: Statement, address: nat)

  /** The fields of Data; addresses below nextAddress have been used. */
  datatype Store = Store(statements: map<string, Entry>, lru: seq<Node>, size: nat, nextAddress: nat)

  ghost predicate NodesDistinct(lru: seq<Node>) {
    forall i, j :: 0 <= i < j < |lru| ==> lru[i].key != lru[j].key && lru[i].address != lru[j].address
  }

  ghost predicate HasAddress(lru: seq<Node>, address: nat) {
    exists i :: 0 <= i < |lru| && lru[i].address == address
  }

  ghost predicate InList(lru: seq<Node>, key: string) {
    exists i :: 0 <= i < |lru| && lru[i].key == key
  }

  /** The two structures point at each other, and the counter counts them. */
  ghost predicate Linked(d: Store) {
    && d.size == |d.lru|
    && NodesDistinct(d.lru)
    && (forall i :: 0 <= i < |d.lru| ==>
          && d.lru[i].address < d.nextAddress
          && d.lru[i].key in d.statements
          && d.statements[d.lru[i].key].address == d.lru[i].address)
    && (forall key :: key in d.statements ==> InList(d.lru, key) && d.statements[key].statement.query == key)
  }

  /** The recency list the structures stand for. */
  ghost function Listed(d: Store): (r: Recency)
    requires Linked(d)
    ensures |r| == |d.lru| && forall i :: 0 <= i < |r| ==> r[i] == d.statements[d.lru[i].key].statement && r[i].query == d.lru[i].key
    ensures DistinctQueries(r)
  {
    seq(|d.lru|, i requires 0 <= i < |d.lru| => d.statements[d.lru[i].key].statement)
  }

  function Removed(d: Store, k: nat): Store
    requires k < |d.lru| && d.size > 0
  {
    Store(d.statements - {d.lru[k].key}, d.lru[..k] + d.lru[k + 1..], d.size - 1, d.nextAddress)
  }

  function InFront(d: Store, st: Statement): Store {
    Store(d.statements[st.query := Entry(st, d.nextAddress)], [Node(d.nextAddress, st.query)] + d.lru,
          d.size + 1, d.nextAddress + 1)
  }

  lemma RemovedListHas(lru: seq<Node>, k: nat, key: string)
    requires k < |lru| && InList(lru, key) && lru[k].key != key
    ensures InList(lru[..k] + lru[k + 1..], key)
  {
    var rest := lru[..k] + lru[k + 1..];
    var i :| 0 <= i < |lru| && lru[i].key == key;
    assert rest[if i < k then i else i - 1].key == key;
  }

  /** An entry can leave both structures. */
  lemma RemovedLinks(d: Store, k: nat)
    requires Linked(d) && k < |d.lru|
    ensures Linked(Removed(d, k))
  {
    hide InList;
    var e := Removed(d, k);
    assert forall i :: 0 <= i < |e.lru| ==> e.lru[i] == d.lru[if i < k then i else i + 1];
    forall key | key in e.statements
      ensures InList(e.lru, key)
    {
      RemovedListHas(d.lru, k, key);
    }
  }

  lemma RemovedIsLinked(d: Store, k: nat)
    requires Linked(d) && k < |d.lru|
    ensures Linked(Removed(d, k)) && Listed(Removed(d, k)) == Listed(d)[..k] + Listed(d)[k + 1..]
  {
    hide Linked, NodesDistinct;
    RemovedLinks(d, k);
    var r, e := Listed(d), Removed(d, k);
    var r' := Listed(e);
    LinkedSizes(d);
    LinkedSizes(e);
    forall i | 0 <= i < |r'|
      ensures r'[i] == (r[..k] + r[k + 1..])[i]
    {
      assert e.lru[i] == d.lru[if i < k then i else i + 1];
    }
  }

  lemma LinkedSizes(d: Store)
    requires Linked(d)
    ensures d.size == |d.lru| && forall i :: 0 <= i < |d.lru| ==> d.lru[i].key in d.statements
  {
  }

  lemma FrontListHas(lru: seq<Node>, node: Node, key: string)
    requires InList(lru, key) || node.key == key
    ensures InList([node] + lru, key)
  {
    var longer := [node] + lru;
    assert longer[0] == node;
    if node.key != key {
      var i :| 0 <= i < |lru| && lru[i].key == key;
      assert longer[i + 1].key == key;
    }
  }

  /** A new entry can join both at the front. */
  lemma InFrontLinks(d: Store, st: Statement)
    requires Linked(d) && st.query !in d.statements
    ensures Linked(InFront(d, st))
  {
    hide InList;
    var e := InFront(d, st);
    assert forall i :: 0 < i < |e.lru| ==> e.lru[i] == d.lru[i - 1];
    forall key | key in e.statements
      ensures InList(e.lru, key)
    {
      FrontListHas(d.lru, Node(d.nextAddress, st.query), key);
    }
  }

  lemma InFrontIsLinked(d: Store, st: Statement)
    requires Linked(d) && st.query !in d.statements
    ensures Linked(InFront(d, st)) && Listed(InFront(d, st)) == [st] + Listed(d)
  {
    hide Linked, NodesDistinct;
    InFrontLinks(d, st);
    var r, e := Listed(d), InFront(d, st);
    var r' := Listed(e);
    LinkedSizes(d);
    LinkedSizes(e);
    forall i | 0 <= i < |r'|
      ensures r'[i] == ([st] + r)[i]
    {
      if i > 0 {
        assert e.lru[i] == d.lru[i - 1];
      }
    }
  }

  lemma CachedIsListed(d: Store, query: string)
    requires Linked(d)
    ensures query in d.statements <==> HasQuery(Listed(d), query)
  {
    if query in d.statements {
      assert InList(d.lru, query);
      var i :| 0 <= i < |d.lru| && d.lru[i].key == query;
      assert Listed(d)[i].query == query;
    }
  }

  /** The node a map entry points at is the one that points back. */
  lemma PointsBack(d: Store, query: string, k: nat)
    requires Linked(d) && query in d.statements && k < |d.lru| && d.lru[k].address == d.statements[query].address
    ensures d.lru[k].key == query && Listed(d)[k].query == query
  {
    assert InList(d.lru, query);
    var i :| 0 <= i < |d.lru| && d.lru[i].key == query;
    assert d.lru[i].address == d.lru[k].address;
  }

  class Data {
    var statements: map<string, Entry>
    var lru: seq<Node>
    var size: nat
    var nextAddress: nat
    const maxSize: nat

    ghost function Value(): Store
      reads this
    {
      Store(statements, lru, size, nextAddress)
    }

    ghost predicate Valid()
      reads this
    {
      Linked(Value())
    }

    ghost function Contents(): Recency
      requires Valid()
      reads this
    {
      Listed(Value())
    }

    constructor (maxSize: nat)
      ensures Valid() && Contents() == [] && this.maxSize == maxSize
    {
      this.maxSize := maxSize;
      statements, lru, size, nextAddress := map[], [], 0, 0;
    }

    /** lru.erase(it->second.lru_ptr): the node is found by its address. */
    method Unlink(address: nat) returns (ghost k: nat)
      requires HasAddress(lru, address)
      modifies this`lru
      ensures k < |old(lru)| && old(lru)[k].address == address
      ensures lru == old(lru)[..k] + old(lru)[k + 1..]
    {
      var at := 0;
      while lru[at].address != address
        invariant at < |lru| && forall i :: 0 <= i < at ==> lru[i].address != address
        decreases |lru| - at
      {
        at := at + 1;
      }
      k := at;
      lru := lru[..at] + lru[at + 1..];
    }

    /** lru.push_front(it); it->second.lru_ptr = lru.begin() */
    method LinkFront(st: Statement)
      modifies this`lru, this`statements, this`nextAddress
      ensures lru == [Node(old(nextAddress), st.query)] + old(lru)
      ensures statements == old(statements)[st.query := Entry(st, old(nextAddress))]
      ensures nextAddress == old(nextAddress) + 1
    {
      lru := [Node(nextAddress, st.query)] + lru;
      statements := statements[st.query := Entry(st, nextAddress)];
      nextAddress := nextAddress + 1;
    }

    /** Insert when the query is cached: the statement is replaced and moves to the front. */
    method Refresh(st: Statement)
      requires Valid() && st.query in statements
      modifies this
      ensures Valid() && Contents() == Inserted(old(Contents()), maxSize, st)
    {
      hide Linked, Listed, NodesDistinct;
      ghost var d, was := Value(), Contents();
      CachedIsListed(d, st.query);
      HasNode(d, st.query);
      statements := statements[st.query := Entry(st, statements[st.query].address)];
      ghost var k := Unlink(statements[st.query].address);
      PointsBack(d, st.query, k);
      WithoutIndex(was, st.query, k);
      LinkFront(st);
      RefreshedValue(d, st, k);
    }

    /** Insert when the query is new: at the limit, the least recently inserted statement goes. */
    method InsertNew(st: Statement)
      requires Valid() && st.query !in statements
      modifies this
      ensures Valid() && Contents() == Inserted(old(Contents()), maxSize, st)
    {
      hide Linked, Listed, NodesDistinct;
      ghost var d := Value();
      CachedIsListed(d, st.query);
      LinkedSizes(d);
      if size > 0 && size >= maxSize {
        EvictedValue(d);
        statements := statements - {lru[|lru| - 1].key};
        lru := lru[..|lru| - 1];
        size := size - 1;
      }
      InFrontIsLinked(Value(), st);
      LinkFront(st);
      size := size + 1;
    }

    method Insert(st: Statement)
      requires Valid()
      modifies this
      ensures Valid() && Contents() == Inserted(old(Contents()), maxSize, st)
    {
      if st.query in statements {
        Refresh(st);
      } else {
        InsertNew(st);
      }
    }

    /** A cached statement is handed out and leaves the cache. */
    method Fetch(query: string) returns (st: MaybeStatement)
      requires Valid()
      modifies this
      ensures Valid() && st == Lookup(old(Contents()), query) && Contents() == Without(old(Contents()), query)
    {
      hide Linked, Listed, NodesDistinct;
      ghost var d, was := Value(), Contents();
      CachedIsListed(d, query);
      if query !in statements {
        LookupAbsent(was, query);
        WithoutAbsent(was, query);
        return NoStatement;
      }
      HasNode(d, query);
      st := AStatement(statements[query].statement);
      ghost var k := Unlink(statements[query].address);
      PointsBack(d, query, k);
      WithoutIndex(was, query, k);
      LookupIndex(was, query, k);
      RemovedIsLinked(d, k);
      statements := statements - {query};
      size := size - 1;
      assert Value() == Removed(d, k);
    }

    method Clear()
      modifies this
      ensures Valid() && Contents() == []
    {
      lru, statements, size := [], map[], 0;
    }
  }

  lemma HasNode(d: Store, query: string)
    requires Linked(d) && query in d.statements
    ensures d.size == |d.lru| > 0 && HasAddress(d.lru, d.statements[query].address)
  {
    assert InList(d.lru, query);
    var i :| 0 <= i < |d.lru| && d.lru[i].key == query;
    assert d.lru[i].address == d.statements[query].address;
  }

  /** Dropping the last node and its entry drops the last statement. */
  lemma EvictedValue(d: Store)
    requires Linked(d) && |d.lru| > 0 && d.size == |d.lru|
    ensures var last := |d.lru| - 1;
      var e := Store(d.statements - {d.lru[last].key}, d.lru[..last], d.size - 1, d.nextAddress);
      Linked(e) && Listed(e) == Listed(d)[..|Listed(d)| - 1]
  {
    hide Linked, NodesDistinct;
    var last := |d.lru| - 1;
    RemovedIsLinked(d, last);
    assert d.lru[..last] == d.lru[..last] + d.lru[last + 1..];
    assert Listed(d)[..last] == Listed(d)[..last] + Listed(d)[last + 1..];
  }

  /** Replacing an entry is removing it and inserting its successor. */
  lemma RefreshedValue(d: Store, st: Statement, k: nat)
    requires Linked(d) && k < |d.lru| && d.lru[k].key == st.query && st.query in d.statements
    ensures var e := Store(d.statements[st.query := Entry(st, d.statements[st.query].address)][st.query := Entry(st, d.nextAddress)],
                           [Node(d.nextAddress, st.query)] + (d.lru[..k] + d.lru[k + 1..]), d.size, d.nextAddress + 1);
      Linked(e) && Listed(e) == [st] + (Listed(d)[..k] + Listed(d)[k + 1..])
  {
    hide Linked, Listed, NodesDistinct;
    HasNode(d, st.query);
    RemovedIsLinked(d, k);
    InFrontIsLinked(Removed(d, k), st);
    var e := InFront(Removed(d, k), st);
    assert e.statements == d.statements[st.query := Entry(st, d.statements[st.query].address)][st.query := Entry(st, d.nextAddress)];
  }

  // ----- Over whole runs ----------------------------------------------------------------------------

  datatype Op = InsertOp(st: Statement) | FetchOp(query: string) | ClearOp

  function Apply(r: Recency, maxSize: nat, op: Op): Recency {
    match op
    case InsertOp(st) => Inserted(r, maxSize, st)
    case FetchOp(query) => Without(r, query)
    case ClearOp => []
  }

  function ApplyAll(r: Recency, maxSize: nat, ops: seq<Op>): Recency
    decreases |ops|
  {
    if ops == [] then r else ApplyAll(Apply(r, maxSize, ops[0]), maxSize, ops[1..])
  }

  /** The queries some operations insert. */
  function InsertedQueries(ops: seq<Op>): set<string> {
    if ops == [] then {}
    else (if ops[0].InsertOp? then {ops[0].st.query} else {}) + InsertedQueries(ops[1..])
  }

  ghost predicate WellFormed(r: Recency, maxSize: nat) {
    DistinctQueries(r) && |r| <= Capacity(maxSize)
  }

  lemma WithoutWellFormed(r: Recency, maxSize: nat, query: string)
    requires WellFormed(r, maxSize)
    ensures WellFormed(Without(r, query), maxSize) && !HasQuery(Without(r, query), query)
    ensures HasQuery(r, query) ==> |Without(r, query)| < |r|
  {
    if HasQuery(r, query) {
      var k :| 0 <= k < |r| && r[k].query == query;
      WithoutIndex(r, query, k);
    } else {
      WithoutAbsent(r, query);
    }
  }

  /** Queries stay distinct and the cache never holds more than max(1, max_size) statements. */
  lemma ApplyKeepsWellFormed(r: Recency, maxSize: nat, op: Op)
    requires WellFormed(r, maxSize)
    ensures WellFormed(Apply(r, maxSize, op), maxSize)
  {
    match op
    case InsertOp(st) => WithoutWellFormed(r, maxSize, st.query);
    case FetchOp(query) => WithoutWellFormed(r, maxSize, query);
    case ClearOp =>
  }

  lemma {:induction false} RunKeepsWellFormed(r: Recency, maxSize: nat, ops: seq<Op>)
    requires WellFormed(r, maxSize)
    ensures WellFormed(ApplyAll(r, maxSize, ops), maxSize)
    decreases |ops|
  {
    if ops != [] {
      ApplyKeepsWellFormed(r, maxSize, ops[0]);
      RunKeepsWellFormed(Apply(r, maxSize, ops[0]), maxSize, ops[1..]);
    }
  }

  /** The statement is in the list, and only statements of the given queries have been inserted after it. */
  ghost predicate KeptBehind(r: Recency, st: Statement, newer: set<string>) {
    exists k :: 0 <= k < |r| && r[k] == st && forall i :: 0 <= i < k ==> r[i].query in newer
  }

  /** An operation that leaves a statement's query alone. */
  predicate Spares(op: Op, query: string) {
    match op
    case InsertOp(st) => st.query != query
    case FetchOp(q) => q != query
    case ClearOp => false
  }

  function QueriesBefore(r: Recency, k: nat): set<string>
    requires k <= |r|
  {
    set i | 0 <= i < k :: r[i].query
  }

  lemma NoneBefore(r: Recency)
    ensures QueriesBefore(r, 0) == {}
  {
  }

  lemma OneMoreBefore(r: Recency, k: nat)
    requires DistinctQueries(r) && k < |r|
    ensures r[k].query !in QueriesBefore(r, k) && QueriesBefore(r, k + 1) == QueriesBefore(r, k) + {r[k].query}
  {
  }

  lemma {:induction false} CountBefore(r: Recency, k: nat)
    requires DistinctQueries(r) && k <= |r|
    ensures |QueriesBefore(r, k)| == k
    decreases k
  {
    hide QueriesBefore, DistinctQueries;
    if k == 0 {
      NoneBefore(r);
    }
    if k > 0 {
      CountBefore(r, k - 1);
      OneMoreBefore(r, k - 1);
    }
  }

  lemma SubsetCount(a: set<string>, b: set<string>)
    requires a <= b
    ensures |a| <= |b|
  {
    if a != b {
      var rest := b - a;
      assert b == a + rest && a !! rest;
    }
  }

  /** A statement that is not alone at the end of a full list survives an eviction. */
  lemma NotEvicted(r: Recency, maxSize: nat, st: Statement, newer: set<string>, incoming: string, k: nat)
    requires DistinctQueries(r) && k < |r| && r[k] == st && (forall i :: 0 <= i < k ==> r[i].query in newer)
    requires !HasQuery(r, incoming) && |newer + {incoming}| < maxSize
    ensures |r| >= maxSize ==> k < |r| - 1
  {
    CountBefore(r, k);
    var before := QueriesBefore(r, k) + {incoming};
    assert incoming !in QueriesBefore(r, k);
    SubsetCount(before, newer + {incoming});
  }

  lemma SpliceKeeps(r: Recency, st: Statement, newer: set<string>, m: nat)
    requires KeptBehind(r, st, newer) && m < |r| && r[m].query != st.query
    ensures KeptBehind(r[..m] + r[m + 1..], st, newer)
  {
    var k :| 0 <= k < |r| && r[k] == st && forall i :: 0 <= i < k ==> r[i].query in newer;
    var rest := r[..m] + r[m + 1..];
    var at := if m < k then k - 1 else k;
    assert rest[at] == st;
    forall i | 0 <= i < at
      ensures rest[i].query in newer
    {
      assert rest[i] == r[if i < m then i else i + 1];
    }
  }

  /** Taking another statement out leaves this one behind no more than before. */
  lemma RemovalKeeps(r: Recency, st: Statement, newer: set<string>, query: string)
    requires DistinctQueries(r) && KeptBehind(r, st, newer) && query != st.query
    ensures KeptBehind(Without(r, query), st, newer)
  {
    hide KeptBehind, Without, DistinctQueries;
    if HasQuery(r, query) {
      var m :| 0 <= m < |r| && r[m].query == query;
      WithoutIndex(r, query, m);
      SpliceKeeps(r, st, newer, m);
    } else {
      WithoutAbsent(r, query);
    }
  }

  /** Putting another statement in front leaves this one behind it. */
  lemma FrontKeeps(r: Recency, st: Statement, newer: set<string>, other: Statement)
    requires KeptBehind(r, st, newer)
    ensures KeptBehind([other] + r, st, newer + {other.query})
  {
    var k :| 0 <= k < |r| && r[k] == st && forall i :: 0 <= i < k ==> r[i].query in newer;
    var after := [other] + r;
    assert after[k + 1] == st;
    assert forall i :: 0 < i < k + 1 ==> after[i] == r[i - 1];
  }

  lemma EvictionKeeps(r: Recency, maxSize: nat, st: Statement, newer: set<string>, query: string)
    requires DistinctQueries(r) && KeptBehind(r, st, newer) && !HasQuery(r, query)
    requires |newer + {query}| < maxSize <= |r|
    ensures KeptBehind(r[..|r| - 1], st, newer)
  {
    var k :| 0 <= k < |r| && r[k] == st && forall i :: 0 <= i < k ==> r[i].query in newer;
    NotEvicted(r, maxSize, st, newer, query, k);
    assert r[..|r| - 1][k] == st;
  }

  lemma InsertKeeps(r: Recency, maxSize: nat, st: Statement, newer: set<string>, other: Statement)
    requires WellFormed(r, maxSize) && KeptBehind(r, st, newer) && other.query != st.query
    requires |newer + {other.query}| < maxSize
    ensures KeptBehind(Inserted(r, maxSize, other), st, newer + {other.query})
  {
    hide DistinctQueries, HasQuery, Without, KeptBehind;
    if HasQuery(r, other.query) {
      RemovalKeeps(r, st, newer, other.query);
      FrontKeeps(Without(r, other.query), st, newer, other);
    } else if |r| > 0 && |r| >= maxSize {
      EvictionKeeps(r, maxSize, st, newer, other.query);
      FrontKeeps(r[..|r| - 1], st, newer, other);
    } else {
      FrontKeeps(r, st, newer, other);
    }
  }

  lemma {:induction false} StaysBehind(r: Recency, maxSize: nat, st: Statement, newer: set<string>, ops: seq<Op>)
    requires WellFormed(r, maxSize) && KeptBehind(r, st, newer)
    requires forall i :: 0 <= i < |ops| ==> Spares(ops[i], st.query)
    requires |newer + InsertedQueries(ops)| < maxSize
    ensures KeptBehind(ApplyAll(r, maxSize, ops), st, newer + InsertedQueries(ops))
    decreases |ops|
  {
    if ops == [] {
      assert newer + InsertedQueries(ops) == newer;
    } else {
      var op := ops[0];
      assert Spares(op, st.query);
      var newer' := if op.InsertOp? then newer + {op.st.query} else newer;
      assert newer' + InsertedQueries(ops[1..]) == newer + InsertedQueries(ops);
      SubsetCount(newer', newer + InsertedQueries(ops));
      ApplyKeepsWellFormed(r, maxSize, op);
      if op.InsertOp? {
        InsertKeeps(r, maxSize, st, newer, op.st);
      } else {
        RemovalKeeps(r, st, newer, op.query);
      }
      StaysBehind(Apply(r, maxSize, op), maxSize, st, newer', ops[1..]);
    }
  }

  lemma {:induction false} KeptIsFound(r: Recency, st: Statement, k: nat)
    requires DistinctQueries(r) && k < |r| && r[k] == st
    ensures Lookup(r, st.query) == AStatement(st)
  {
    LookupIndex(r, st.query, k);
  }

  /** Retention: a statement that is neither fetched, replaced nor cleared is still there while fewer than max_size
      other queries have been inserted after it, whatever was cached before. */
  lemma RecentStatementsStay(r: Recency, maxSize: nat, st: Statement, ops: seq<Op>)
    requires WellFormed(r, maxSize) && |InsertedQueries(ops)| < maxSize
    requires forall i :: 0 <= i < |ops| ==> Spares(ops[i], st.query)
    ensures Lookup(ApplyAll(Inserted(r, maxSize, st), maxSize, ops), st.query) == AStatement(st)
  {
    var first := Inserted(r, maxSize, st);
    ApplyKeepsWellFormed(r, maxSize, InsertOp(st));
    assert first[0] == st;
    assert KeptBehind(first, st, {});
    assert {} + InsertedQueries(ops) == InsertedQueries(ops);
    StaysBehind(first, maxSize, st, {}, ops);
    RunKeepsWellFormed(first, maxSize, ops);
    var last := ApplyAll(first, maxSize, ops);
    var k :| 0 <= k < |last| && last[k] == st;
    KeptIsFound(last, st, k);
  }

  /** What one insertion comes to, whatever the maximum: the statement is found, every other query is found as before
      but for the oldest when a new query meets a full cache, and the cache has grown by at most that query. */
  lemma InsertEffect(r: Recency, maxSize: nat, st: Statement, query: string)
    requires DistinctQueries(r) && r != [] && query != st.query
    ensures var full := !HasQuery(r, st.query) && |r| >= maxSize;
      var after := Inserted(r, maxSize, st);
      && Lookup(after, st.query) == AStatement(st)
      && Lookup(after, query) == (if full && query == r[|r| - 1].query then NoStatement else Lookup(r, query))
      && |after| == |r| + if full || HasQuery(r, st.query) then 0 else 1
  {
    hide Without, HasQuery;
    if HasQuery(r, st.query) {
      WithoutOthers(r, st.query, query);
      WithoutLength(r, st.query);
    } else if |r| >= maxSize {
      LookupInit(r, query);
    }
  }

  lemma {:induction false} WithoutOthers(r: Recency, gone: string, query: string)
    requires query != gone
    ensures Lookup(Without(r, gone), query) == Lookup(r, query)
    decreases |r|
  {
    if r != [] {
      WithoutOthers(r[1..], gone, query);
      var rest := Without(r[1..], gone);
      if r[0].query == gone {
        assert Without(r, gone) == rest;
      } else {
        assert Without(r, gone) == [r[0]] + rest && ([r[0]] + rest)[1..] == rest;
      }
    }
  }

  lemma WithoutLength(r: Recency, gone: string)
    requires DistinctQueries(r) && HasQuery(r, gone)
    ensures |Without(r, gone)| == |r| - 1
  {
    hide Without;
    var k :| 0 <= k < |r| && r[k].query == gone;
    WithoutIndex(r, gone, k);
  }

  lemma LookupInit(r: Recency, query: string)
    requires DistinctQueries(r) && r != []
    ensures Lookup(r[..|r| - 1], query) == if query == r[|r| - 1].query then NoStatement else Lookup(r, query)
    decreases |r|
  {
    var init := r[..|r| - 1];
    if |r| > 1 {
      assert init[1..] == r[1..][..|r| - 2] && init[0] == r[0];
      LookupInit(r[1..], query);
    }
  }

  /** Into an empty cache anything goes, even with a maximum of 0. */
  lemma InsertFirst(maxSize: nat, st: Statement)
    ensures Inserted([], maxSize, st) == [st]
  {
  }
}
