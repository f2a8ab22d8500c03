/** The pending stack and batch cursor of base/file_enumerator.cc over a tree that may lose visited files. */
module FileEnumeration {

  import opened FileTree

  datatype Cursor = Cursor(pending: seq<Path>, dir: Path, batch: seq<Info>)

  ghost predicate Below(o: Options, q: Path, p: Path) {
    q < p && (o.recursive || |p| == |q| + 1)
  }

  ghost predicate BelowAny(o: Options, pending: seq<Path>, p: Path) {
    exists q :: q in pending && Below(o, q, p)
  }

  /** Entries of the batch from an index on. */
  ghost function Unread(c: Cursor, from: int): set<Path>
    requires from >= 0
  {
    set i | from <= i < |c.batch| :: c.dir + [c.batch[i].name]
  }

  /** Entries the pending directories will lead to. */
  ghost function Unopened(o: Options, nodes: Nodes, pending: seq<Path>): set<Path> {
    set p | p in nodes && Wanted(o, nodes[p]) && BelowAny(o, pending, p)
  }

  /** Everything still to be yielded. */
  ghost function Rest(o: Options, nodes: Nodes, c: Cursor, from: int): set<Path>
    requires from >= 0
  {
    Unread(c, from) + Unopened(o, nodes, c.pending)
  }

  ghost predicate BatchIsTrue(o: Options, nodes: Nodes, c: Cursor, from: int)
    requires from >= 0
  {
    forall i :: from <= i < |c.batch| ==>
      var p := c.dir + [c.batch[i].name];
      p in nodes && nodes[p] == c.batch[i].node && Wanted(o, nodes[p])
  }

  ghost predicate Apart(c: Cursor) {
    forall q :: q in c.pending ==> !(q < c.dir) && (c.batch != [] ==> q != c.dir)
  }

  ghost predicate Inv(o: Options, nodes: Nodes, c: Cursor, from: int)
    requires from >= 0
  {
    IsTree(nodes) && BatchIsTrue(o, nodes, c, from) && DistinctNames(c.batch) && Incomparable(c.pending) && Apart(c)
  }

  // ----- Opening a directory ------------------------------------------------------------------------

  ghost function Opened(o: Options, c: Cursor, entries: seq<Info>): Cursor
    requires c.pending != []
  {
    var n := |c.pending| - 1;
    Cursor(c.pending[..n] + Deeper(o, c.pending[n], entries), c.pending[n], Kept(o, entries))
  }

  /** A directory that cannot be read: only the stack and root_path_ change. */
  function Dropped(c: Cursor): Cursor
    requires c.pending != []
  {
    var n := |c.pending| - 1;
    Cursor(c.pending[..n], c.pending[n], c.batch)
  }

  ghost predicate IsDeeper(o: Options, nodes: Nodes, d: Path, s: seq<Path>) {
    forall q :: q in s <==> o.recursive && IsChild(nodes, d, q) && nodes[q] == Dir
  }

  lemma DeeperAreChildren(o: Options, nodes: Nodes, d: Path, entries: seq<Info>)
    requires IsTree(nodes) && IsListing(nodes, d, entries)
    ensures IsDeeper(o, nodes, d, Deeper(o, d, entries)) && Incomparable(Deeper(o, d, entries))
  {
    hide Deeper;
    DeeperEntries(o, d, entries);
    forall q | q in Deeper(o, d, entries)
      ensures o.recursive && IsChild(nodes, d, q) && nodes[q] == Dir
    {
      assert q == d + [Name(q)];
    }
  }

  lemma KeptAreChildren(o: Options, nodes: Nodes, d: Path, entries: seq<Info>)
    requires IsTree(nodes) && IsListing(nodes, d, entries)
    ensures forall p :: p in Unread(Cursor([], d, Kept(o, entries)), 0) <==> IsChild(nodes, d, p) && Wanted(o, nodes[p])
    ensures DistinctNames(Kept(o, entries)) && BatchIsTrue(o, nodes, Cursor([], d, Kept(o, entries)), 0)
  {
    hide Kept, Wanted, IsListing, IsTree;
    var k := Kept(o, entries);
    forall i | 0 <= i < |k|
      ensures IsChild(nodes, d, d + [k[i].name]) && nodes[d + [k[i].name]] == k[i].node && Wanted(o, k[i].node)
    {
      KeptIsChild(o, nodes, d, entries, i);
    }
    forall p | IsChild(nodes, d, p) && Wanted(o, nodes[p])
      ensures p in Unread(Cursor([], d, k), 0)
    {
      ChildIsKept(o, nodes, d, entries, p);
    }
    ListingIsDistinct(nodes, d, entries);
    KeptEntries(o, entries);
  }

  lemma ListingIsDistinct(nodes: Nodes, d: Path, entries: seq<Info>)
    requires IsListing(nodes, d, entries)
    ensures DistinctNames(entries)
  {
  }

  lemma KeptIsChild(o: Options, nodes: Nodes, d: Path, entries: seq<Info>, i: nat)
    requires IsListing(nodes, d, entries) && i < |Kept(o, entries)|
    ensures var e := Kept(o, entries)[i];
      IsChild(nodes, d, d + [e.name]) && nodes[d + [e.name]] == e.node && Wanted(o, e.node)
  {
    hide Kept, Wanted;
    KeptEntries(o, entries);
    assert Kept(o, entries)[i] in entries;
  }

  lemma ChildIsKept(o: Options, nodes: Nodes, d: Path, entries: seq<Info>, p: Path)
    requires IsTree(nodes) && IsListing(nodes, d, entries) && IsChild(nodes, d, p) && Wanted(o, nodes[p])
    ensures p in Unread(Cursor([], d, Kept(o, entries)), 0)
  {
    hide Kept, Wanted;
    KeptEntries(o, entries);
    var e := Info(Name(p), nodes[p]);
    assert e in entries && e in Kept(o, entries);
    assert p == d + [e.name];
  }

  /** Strictly below a directory: a child, or below a child that is a directory. */
  lemma BelowSplits(o: Options, nodes: Nodes, d: Path, s: seq<Path>, p: Path)
    requires IsTree(nodes) && IsDeeper(o, nodes, d, s) && p in nodes
    ensures Below(o, d, p) <==> IsChild(nodes, d, p) || BelowAny(o, s, p)
  {
    if Below(o, d, p) && |p| > |d| + 1 {
      var q := p[..|d| + 1];
      AncestorsAreDirectories(nodes, q, p);
      assert Up(q) == d;
      assert q in s && Below(o, q, p);
    }
    forall q | q in s && Below(o, q, p)
      ensures Below(o, d, p)
    {
      assert d == Up(q);
    }
  }

  /** Opening a directory trades it for its entries and for the directories among them. */
  lemma OpenedUnopened(o: Options, nodes: Nodes, init: seq<Path>, d: Path, s: seq<Path>, kept: set<Path>)
    requires IsTree(nodes) && IsDeeper(o, nodes, d, s)
    requires forall p :: p in kept <==> IsChild(nodes, d, p) && Wanted(o, nodes[p])
    ensures kept + Unopened(o, nodes, init + s) == Unopened(o, nodes, init + [d])
  {
    hide Below, Wanted;
    forall p | p in nodes
      ensures BelowAny(o, init + [d], p) <==> IsChild(nodes, d, p) || BelowAny(o, init + s, p)
    {
      BelowSplits(o, nodes, d, s, p);
      BelowConcat(o, init, [d], p);
      BelowConcat(o, init, s, p);
      BelowOne(o, d, p);
    }
  }

  lemma BelowConcat(o: Options, a: seq<Path>, b: seq<Path>, p: Path)
    ensures BelowAny(o, a + b, p) <==> BelowAny(o, a, p) || BelowAny(o, b, p)
  {
    hide Below;
    if BelowAny(o, a, p) {
      var q :| q in a && Below(o, q, p);
      assert q in a + b;
    }
    if BelowAny(o, b, p) {
      var q :| q in b && Below(o, q, p);
      assert q in a + b;
    }
  }

  lemma BelowOne(o: Options, d: Path, p: Path)
    ensures BelowAny(o, [d], p) <==> Below(o, d, p)
  {
    hide Below;
    if Below(o, d, p) {
      assert d in [d];
    }
  }

  lemma StillIncomparable(o: Options, nodes: Nodes, init: seq<Path>, d: Path, s: seq<Path>)
    requires Incomparable(init + [d]) && IsDeeper(o, nodes, d, s) && Incomparable(s)
    ensures Incomparable(init + s)
    ensures forall q :: q in init + s ==> !(q <= d)
  {
    var all := init + [d];
    forall i | 0 <= i < |init|
      ensures !(init[i] <= d) && !(d <= init[i])
    {
      assert all[i] == init[i] && all[|init|] == d;
    }
    forall k | 0 <= k < |s|
      ensures s[k] != [] && Up(s[k]) == d
    {
      assert s[k] in s;
    }
    forall i, k | 0 <= i < |init| && 0 <= k < |s|
      ensures !(init[i] <= s[k]) && !(s[k] <= init[i])
    {
      ChildApart(init[i], d, s[k]);
    }
    forall i, j | 0 <= i < |init| && 0 <= j < |init| && i != j
      ensures !(init[i] <= init[j])
    {
      assert all[i] == init[i] && all[j] == init[j];
    }
  }

  lemma ChildApart(q: Path, d: Path, c: Path)
    requires c != [] && Up(c) == d && !(q <= d) && !(d <= q)
    ensures !(q <= c) && !(c <= q)
  {
    assert d <= c;
    if |q| <= |d| {
      assert c[..|q|] == d[..|q|];
    }
  }

  lemma OpenKeepsInv(o: Options, nodes: Nodes, c: Cursor, from: nat, entries: seq<Info>)
    requires Inv(o, nodes, c, from) && from >= |c.batch| && c.pending != []
    requires IsListing(nodes, c.pending[|c.pending| - 1], entries)
    ensures Inv(o, nodes, Opened(o, c, entries), 0)
    ensures Rest(o, nodes, Opened(o, c, entries), 0) == Rest(o, nodes, c, from)
  {
    hide IsTree, IsListing, DistinctNames, Kept, Deeper, Unopened, Incomparable, BatchIsTrue, IsDeeper, Wanted;
    var n := |c.pending| - 1;
    var init, d := c.pending[..n], c.pending[n];
    assert c.pending == init + [d];
    var s := Deeper(o, d, entries);
    DeeperAreChildren(o, nodes, d, entries);
    KeptAreChildren(o, nodes, d, entries);
    StillIncomparable(o, nodes, init, d, s);
    var lone, full := Cursor([], d, Kept(o, entries)), Opened(o, c, entries);
    OpenedUnopened(o, nodes, init, d, s, Unread(lone, 0));
    SameBatch(o, nodes, lone, full);
    assert Unread(c, from) == {};
  }

  lemma SameBatch(o: Options, nodes: Nodes, a: Cursor, b: Cursor)
    requires a.dir == b.dir && a.batch == b.batch
    ensures Unread(a, 0) == Unread(b, 0) && (BatchIsTrue(o, nodes, a, 0) <==> BatchIsTrue(o, nodes, b, 0))
  {
  }

  lemma DropKeepsInv(o: Options, nodes: Nodes, c: Cursor, from: nat)
    requires Inv(o, nodes, c, from) && from >= |c.batch| && c.pending != []
    requires var d := c.pending[|c.pending| - 1]; !(d in nodes && nodes[d] == Dir)
    ensures Inv(o, nodes, Dropped(c), from)
    ensures Rest(o, nodes, Dropped(c), from) == Rest(o, nodes, c, from)
  {
    hide Wanted;
    var n := |c.pending| - 1;
    var init, d := c.pending[..n], c.pending[n];
    assert c.pending == init + [d];
    forall p | p in nodes
      ensures BelowAny(o, c.pending, p) <==> BelowAny(o, init, p)
    {
      NothingBelow(o, nodes, d, p);
      BelowConcat(o, init, [d], p);
      BelowOne(o, d, p);
    }
    forall q | q in init
      ensures !(q <= d)
    {
      var i :| 0 <= i < n && c.pending[i] == q;
    }
    forall i, j | 0 <= i < n && 0 <= j < n && i != j
      ensures !(init[i] <= init[j])
    {
      assert init[i] == c.pending[i] && init[j] == c.pending[j];
    }
  }

  lemma NothingBelow(o: Options, nodes: Nodes, d: Path, p: Path)
    requires IsTree(nodes) && p in nodes && !(d in nodes && nodes[d] == Dir)
    ensures !Below(o, d, p)
  {
    if d < p {
      AncestorsAreDirectories(nodes, d, p);
    }
  }

  // ----- The search ends ----------------------------------------------------------------------------

  /** What the stack still covers, directories on it included. */
  ghost function Covered(o: Options, nodes: Nodes, pending: seq<Path>): set<Path> {
    set p | p in nodes && (exists q :: q in pending && q <= p && (o.recursive || q == p))
  }

  lemma OpenCoversLess(o: Options, nodes: Nodes, c: Cursor, entries: seq<Info>)
    requires IsTree(nodes) && c.pending != [] && Incomparable(c.pending)
    requires var d := c.pending[|c.pending| - 1]; d in nodes && IsListing(nodes, d, entries)
    ensures |Covered(o, nodes, Opened(o, c, entries).pending)| < |Covered(o, nodes, c.pending)|
  {
    hide IsTree, IsListing, Deeper;
    var n := |c.pending| - 1;
    var init, d := c.pending[..n], c.pending[n];
    var s := Deeper(o, d, entries);
    var all := init + s;
    assert c.pending == init + [d];
    DeeperAreChildren(o, nodes, d, entries);
    StillIncomparable(o, nodes, init, d, s);
    forall p | p in Covered(o, nodes, all)
      ensures p in Covered(o, nodes, c.pending)
    {
      var q :| q in all && q <= p && (o.recursive || q == p);
      if q !in init {
        assert q in s;
        assert d == Up(q);
        assert d in c.pending && d <= p;
      } else {
        assert q in c.pending;
      }
    }
    assert d in c.pending && d in Covered(o, nodes, c.pending) && d !in Covered(o, nodes, all);
    Smaller(Covered(o, nodes, all), Covered(o, nodes, c.pending));
  }

  lemma DropCoversNoMore(o: Options, nodes: Nodes, pending: seq<Path>)
    requires pending != []
    ensures |Covered(o, nodes, pending[..|pending| - 1])| <= |Covered(o, nodes, pending)|
  {
    var init := pending[..|pending| - 1];
    forall q | q in init
      ensures q in pending
    {
    }
    NoLarger(Covered(o, nodes, init), Covered(o, nodes, pending));
  }

  lemma {:induction false} NoLarger<T>(a: set<T>, b: set<T>)
    requires a <= b
    ensures |a| <= |b|
  {
    if x :| x in a {
      NoLarger(a - {x}, b - {x});
    }
  }

  lemma Smaller<T>(a: set<T>, b: set<T>)
    requires a < b
    ensures |a| < |b|
  {
    var x :| x in b && x !in a;
    NoLarger(a, b - {x});
  }

  // ----- Taking an entry ----------------------------------------------------------------------------

  /** None of these leads to the location. */
  ghost predicate NothingAbove(s: set<Path>, p: Path) {
    forall a :: a in s ==> !(a < p)
  }

  /** Everything above the entry under the cursor left the rest before. */
  lemma ParentsFirst(o: Options, nodes: Nodes, c: Cursor, at: nat)
    requires Inv(o, nodes, c, at) && at < |c.batch|
    ensures NothingAbove(Rest(o, nodes, c, at), c.dir + [c.batch[at].name])
  {
    hide IsTree, Wanted, Incomparable, BatchIsTrue;
    var p := c.dir + [c.batch[at].name];
    forall a | a in Unopened(o, nodes, c.pending)
      ensures !(a < p)
    {
      var q :| q in c.pending && Below(o, q, a);
      assert a < p ==> a <= c.dir;
    }
  }

  /** The entry under the cursor leaves the rest. */
  lemma TakeKeepsInv(o: Options, nodes: Nodes, c: Cursor, at: nat)
    requires Inv(o, nodes, c, at) && at < |c.batch|
    ensures Inv(o, nodes, c, at + 1)
    ensures var p := c.dir + [c.batch[at].name];
      && p in nodes && nodes[p] == c.batch[at].node && Wanted(o, nodes[p])
      && p in Rest(o, nodes, c, at) && Rest(o, nodes, c, at + 1) == Rest(o, nodes, c, at) - {p}
  {
    hide IsTree, Wanted, Incomparable;
    var p := c.dir + [c.batch[at].name];
    assert p !in Unopened(o, nodes, c.pending) by {
      forall q | q in c.pending
        ensures !(q < p)
      {
        assert q < p ==> q <= c.dir;
      }
    }
    forall i | at + 1 <= i < |c.batch|
      ensures c.dir + [c.batch[i].name] != p
    {
      SiblingsApart(c.dir, c.batch[i].name, c.batch[at].name);
    }
    assert Unread(c, at) == Unread(c, at + 1) + {p};
  }

  /** Removing a file that has been yielded disturbs nothing. */
  lemma RemovalKeepsInv(o: Options, nodes: Nodes, c: Cursor, from: nat, p: Path)
    requires Inv(o, nodes, c, from) && p in nodes && nodes[p].File? && p !in Rest(o, nodes, c, from)
    ensures Inv(o, nodes - {p}, c, from) && Rest(o, nodes - {p}, c, from) == Rest(o, nodes, c, from)
  {
    hide Wanted, BelowAny, Incomparable, Apart, DistinctNames, IsTree;
    FilesAreChildless(nodes, p);
    LeafRemoval(nodes, p);
    assert forall i :: from <= i < |c.batch| ==> c.dir + [c.batch[i].name] in Unread(c, from);
    assert Unopened(o, nodes - {p}, c.pending) == Unopened(o, nodes, c.pending);
  }

  // ----- The enumerator -----------------------------------------------------------------------------

  datatype Found = Entry(path: Path) | Done

  /** Lists a set in an order of its own choosing. */
  method AnyOrder(all: set<Info>) returns (entries: seq<Info>)
    requires forall e, f :: e in all && f in all && e.name == f.name ==> e == f
    ensures (forall e :: e in entries <==> e in all) && DistinctNames(entries)
  {
    entries := [];
    var left := all;
    while left != {}
      invariant left <= all && forall e :: e in all <==> e in left || e in entries
      invariant forall i :: 0 <= i < |entries| ==> entries[i] !in left
      invariant DistinctNames(entries)
      decreases |left|
    {
      var e :| e in left;
      left := left - {e};
      entries := entries + [e];
    }
  }

  class Disk {
    var nodes: Nodes

    constructor (nodes: Nodes)
      ensures this.nodes == nodes
    {
      this.nodes := nodes;
    }

    /** Lists the directory in an arbitrary order; fails on anything but a directory. */
    method ReadDirectory(d: Path) returns (ok: bool, entries: seq<Info>)
      requires IsTree(nodes)
      ensures ok <==> d in nodes && nodes[d] == Dir
      ensures ok ==> IsListing(nodes, d, entries)
    {
      if d !in nodes || nodes[d] != Dir {
        return false, [];
      }
      var all := set p | p in nodes && p != [] && Up(p) == d :: Info(Name(p), nodes[p]);
      all := all + {Info(".", Dir), Info("..", Dir)};
      DirentNames(nodes, d, all);
      entries := AnyOrder(all);
      forall i | 0 <= i < |entries|
        ensures IsDots(entries[i].name) ||
          (d + [entries[i].name] in nodes && nodes[d + [entries[i].name]] == entries[i].node)
      {
        assert entries[i] in all;
      }
      forall p | IsChild(nodes, d, p)
        ensures Info(Name(p), nodes[p]) in entries
      {
        assert Info(Name(p), nodes[p]) in all;
      }
      return true, entries;
    }

    method Unlink(p: Path) returns (ok: bool)
      modifies this
      ensures ok <==> p in old(nodes) && old(nodes)[p].File?
      ensures nodes == if ok then old(nodes) - {p} else old(nodes)
    {
      ok := p in nodes && nodes[p].File?;
      if ok {
        nodes := nodes - {p};
      }
    }

    /** Fails on files, on directories with something in them, and on the root of the file system. */
    method Rmdir(p: Path) returns (ok: bool)
      modifies this
      ensures ok <==> p in old(nodes) && old(nodes)[p] == Dir && p != [] && Childless(old(nodes), p)
      ensures nodes == if ok then old(nodes) - {p} else old(nodes)
    {
      ok := p in nodes && nodes[p] == Dir && p != [] && forall q | q in nodes :: !IsChild(nodes, p, q);
      if ok {
        nodes := nodes - {p};
      }
    }
  }

  /** Entries with the same name are the same entry. */
  lemma DirentNames(nodes: Nodes, d: Path, all: set<Info>)
    requires IsTree(nodes)
    requires all == (set p | p in nodes && p != [] && Up(p) == d :: Info(Name(p), nodes[p])) + {Info(".", Dir), Info("..", Dir)}
    ensures forall e, f :: e in all && f in all && e.name == f.name ==> e == f
    ensures forall e :: e in all ==> IsDots(e.name) || (d + [e.name] in nodes && nodes[d + [e.name]] == e.node)
  {
    hide IsTree;
    forall e | e in all
      ensures if IsDots(e.name) then e.node == Dir else d + [e.name] in nodes && nodes[d + [e.name]] == e.node
    {
      if e != Info(".", Dir) && e != Info("..", Dir) {
        var p :| p in nodes && p != [] && Up(p) == d && e == Info(Name(p), nodes[p]);
        TreeHasParent(nodes, p);
        assert p == d + [e.name];
      }
    }
  }

  lemma InvIsTree(o: Options, nodes: Nodes, c: Cursor, from: nat)
    requires Inv(o, nodes, c, from)
    ensures IsTree(nodes) && Incomparable(c.pending)
  {
  }

  lemma NothingListed(o: Options, d: Path)
    ensures Kept(o, []) == [] && Deeper(o, d, []) == []
  {
  }

  lemma MoreListed(o: Options, d: Path, s: seq<Info>, i: nat)
    requires i < |s|
    ensures Kept(o, s[..i + 1]) == Kept(o, s[..i]) + if !IsDots(s[i].name) && Wanted(o, s[i].node) then [s[i]] else []
    ensures Deeper(o, d, s[..i + 1]) ==
      Deeper(o, d, s[..i]) + if !IsDots(s[i].name) && o.recursive && s[i].node.Dir? then [d + [s[i].name]] else []
  {
    assert s[..i + 1][..i] == s[..i];
  }

  /** A call of Next returns one entry of those to come and takes it from them; nothing that leads to it is among
      them any more. GetInfo describes the entry. Only when none is to come does Next return the empty path. */
  ghost predicate Yields(o: Options, nodes: Nodes, before: set<Path>, after: set<Path>, r: Found,
                         entries: seq<Info>, at: nat) {
    if r.Done? then before == {} && after == {}
    else
      && r.path in before && after == before - {r.path}
      && r.path in nodes && Wanted(o, nodes[r.path]) && r.path != [] && NothingAbove(before, r.path)
      && at < |entries| && entries[at] == Info(Name(r.path), nodes[r.path])
  }

  class FileEnumerator {
    const disk: Disk
    const options: Options
    var pending: seq<Path>
    var root: Path
    var entries: seq<Info>
    var current: nat

    ghost function At(): Cursor
      reads this
    {
      Cursor(pending, root, entries)
    }

    /** What the calls of Next to come will return. */
    ghost function Coming(): set<Path>
      reads this, disk
    {
      Rest(options, disk.nodes, At(), current + 1)
    }

    ghost predicate Valid()
      reads this, disk
    {
      Inv(options, disk.nodes, At(), current + 1)
    }

    constructor (disk: Disk, root: Path, options: Options)
      requires IsTree(disk.nodes)
      ensures this.disk == disk && this.options == options && Valid()
      ensures Coming() == set p | p in disk.nodes && Wanted(options, disk.nodes[p]) && Below(options, root, p)
    {
      this.disk, this.options := disk, options;
      pending, this.root, entries, current := [root], root, [], 0;
      new;
      forall p
        ensures BelowAny(options, [root], p) <==> Below(options, root, p)
      {
        BelowOne(options, root, p);
      }
      assert Unread(At(), 1) == {};
    }

    method Next() returns (r: Found)
      requires Valid()
      modifies this
      ensures Valid()
      ensures Yields(options, disk.nodes, old(Coming()), Coming(), r, entries, current)
    {
      current := current + 1;
      while current >= |entries|
        invariant Inv(options, disk.nodes, At(), current)
        invariant Rest(options, disk.nodes, At(), current) == old(Coming())
        decreases |Covered(options, disk.nodes, pending)|, |pending|
      {
        if pending == [] {
          return Done;
        }
        OpenNext();
      }
      TakeKeepsInv(options, disk.nodes, At(), current);
      ParentsFirst(options, disk.nodes, At(), current);
      r := Entry(root + [entries[current].name]);
    }

    /** The loop of Next over a listing. */
    method ReadBatch(listing: seq<Info>)
      modifies this
      ensures root == old(root) && current == 0
      ensures entries == Kept(options, listing) && pending == old(pending) + Deeper(options, root, listing)
    {
      hide Kept, Deeper;
      entries, current := [], 0;
      NothingListed(options, root);
      assert listing[..0] == [] && pending + [] == pending;
      for i := 0 to |listing|
        invariant entries == Kept(options, listing[..i]) && root == old(root) && current == 0
        invariant pending == old(pending) + Deeper(options, root, listing[..i])
      {
        var info := listing[i];
        MoreListed(options, root, listing, i);
        if !IsDots(info.name) {
          if options.recursive && info.node.Dir? {
            pending := pending + [root + [info.name]];
          }
          if Wanted(options, info.node) {
            entries := entries + [info];
          }
        }
      }
      assert listing[..|listing|] == listing;
    }

    /** The body of the loop of Next: pops a directory and reads it. */
    method OpenNext()
      requires pending != [] && current >= |entries| && Inv(options, disk.nodes, At(), current)
      modifies this
      ensures Inv(options, disk.nodes, At(), current)
      ensures Rest(options, disk.nodes, At(), current) == old(Rest(options, disk.nodes, At(), current))
      ensures var less := |Covered(options, disk.nodes, pending)|; var more := old(|Covered(options, disk.nodes, pending)|);
        less < more || (less == more && |pending| < old(|pending|))
    {
      hide Inv, Rest, Covered, IsTree, IsListing, Kept, Deeper;
      ghost var o, nodes, before, from := options, disk.nodes, At(), current;
      InvIsTree(o, nodes, before, from);
      root := pending[|pending| - 1];
      pending := pending[..|pending| - 1];
      var ok, listing := disk.ReadDirectory(root);
      if !ok {
        assert At() == Dropped(before);
        DropKeepsInv(o, nodes, before, from);
        DropCoversNoMore(o, nodes, before.pending);
        return;
      }
      ReadBatch(listing);
      assert At() == Opened(o, before, listing);
      OpenKeepsInv(o, nodes, before, from, listing);
      OpenCoversLess(o, nodes, before, listing);
    }
  }

  // ----- A whole enumeration ------------------------------------------------------------------------

  /** What a loop over Next has still to see: the entry in hand and those to come. */
  ghost function Todo(current: Found, coming: set<Path>): set<Path> {
    if current.Entry? then coming + {current.path} else coming
  }

  /** Nothing comes after something it leads to. */
  ghost predicate ParentsBeforeChildren(s: seq<Path>) {
    forall i, j :: 0 <= i < j < |s| ==> !(s[j] < s[i])
  }

  ghost predicate NothingAboveAny(coming: set<Path>, s: seq<Path>) {
    forall i :: 0 <= i < |s| ==> NothingAbove(coming, s[i])
  }

  lemma YieldsNext(o: Options, nodes: Nodes, before: set<Path>, after: set<Path>, r: Found, entries: seq<Info>, at: nat)
    requires Yields(o, nodes, before, after, r, entries, at)
    ensures Todo(r, after) == before && (r.Entry? ==> r.path !in after && NothingAbove(after, r.path))
    ensures r.Done? ==> after == {}
  {
  }

  lemma OneMore(s: seq<Path>, p: Path, coming: set<Path>)
    requires ParentsBeforeChildren(s) && NothingAboveAny(coming + {p}, s) && NothingAbove(coming, p)
    ensures ParentsBeforeChildren(s + [p]) && NothingAboveAny(coming, s + [p])
  {
    assert p in coming + {p};
    assert forall a :: a in coming ==> a in coming + {p};
  }

  lemma EverythingBelow(o: Options, nodes: Nodes, root: Path)
    ensures (set p | p in nodes && Wanted(o, nodes[p]) && Below(o, root, p)) ==
            (set p | && p in nodes && root < p && (o.recursive || |p| == |root| + 1)
                     && if nodes[p] == Dir then o.directories else o.files)
  {
  }

  /** The loop of every caller: it returns each wanted entry below the root exactly once, parents first. */
  method EnumerateAll(disk: Disk, root: Path, o: Options) returns (yielded: seq<Path>)
    requires IsTree(disk.nodes)
    ensures multiset(yielded) == multiset(set p | && p in disk.nodes && root < p && (o.recursive || |p| == |root| + 1)
                                                  && if disk.nodes[p] == Dir then o.directories else o.files)
    ensures ParentsBeforeChildren(yielded)
  {
    hide Inv, Rest, Unopened, Unread, IsTree, Yields, Wanted, Below, NothingAbove, ParentsBeforeChildren, NothingAboveAny;
    yielded := [];
    var traversal := new FileEnumerator(disk, root, o);
    ghost var all := traversal.Coming();
    EverythingBelow(o, disk.nodes, root);
    var current := traversal.Next();
    YieldsNext(o, disk.nodes, all, traversal.Coming(), current, traversal.entries, traversal.current);
    NoneYet(all);
    while current.Entry?
      invariant traversal.Valid() && traversal.disk == disk && traversal.options == o
      invariant multiset(yielded) + multiset(Todo(current, traversal.Coming())) == multiset(all)
      invariant ParentsBeforeChildren(yielded) && NothingAboveAny(Todo(current, traversal.Coming()), yielded)
      invariant if current.Entry? then current.path !in traversal.Coming() && NothingAbove(traversal.Coming(), current.path)
                else traversal.Coming() == {}
      decreases |Todo(current, traversal.Coming())|
    {
      ghost var before := traversal.Coming();
      OneMore(yielded, current.path, before);
      assert multiset(before + {current.path}) == multiset(before) + multiset{current.path};
      yielded := yielded + [current.path];
      current := traversal.Next();
      YieldsNext(o, disk.nodes, before, traversal.Coming(), current, traversal.entries, traversal.current);
    }
  }

  lemma NoneYet(coming: set<Path>)
    ensures ParentsBeforeChildren([]) && NothingAboveAny(coming, [])
  {
  }
}
