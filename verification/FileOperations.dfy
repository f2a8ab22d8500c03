/** The recursive operations of base/file_util.cc that are built on the enumerator. */
module FileOperations {

  import opened FileTree
  import opened FileEnumeration

  /** The tree without a location and everything below it; the root of the file system itself stays. */
  function Pruned(nodes: Nodes, path: Path): Nodes {
    map q | q in nodes && (!(path <= q) || q == []) :: nodes[q]
  }

  /** Parents come before their children, and nothing comes twice. */
  ghost predicate TopDown(path: Path, dirs: seq<Path>) {
    && (dirs != [] ==> dirs[0] == path)
    && (forall i :: 0 < i < |dirs| ==> dirs[i] != [] && Up(dirs[i]) in dirs[..i])
    && (forall i, j :: 0 <= i < j < |dirs| ==> dirs[i] != dirs[j])
  }

  /** What is left below the location: the directories noted so far, and what has not been visited. */
  ghost predicate Stage(was: Nodes, nodes: Nodes, path: Path, dirs: seq<Path>, todo: set<Path>) {
    && IsTree(nodes) && TopDown(path, dirs)
    && (forall q :: q in nodes ==> q in was && nodes[q] == was[q])
    && (forall q :: q in was && !(path <= q) ==> q in nodes)
    && (forall q :: q in nodes && path <= q <==> q in dirs || q in todo)
    && (forall q :: q in dirs ==> q in nodes && nodes[q] == Dir && q !in todo)
  }

  lemma VisitDirectory(was: Nodes, nodes: Nodes, path: Path, dirs: seq<Path>, todo: set<Path>, p: Path)
    requires Stage(was, nodes, path, dirs, todo) && dirs != [] && path < p
    requires p in todo && nodes[p] == Dir && Up(p) !in todo
    ensures Stage(was, nodes, path, dirs + [p], todo - {p})
  {
    hide IsTree, TopDown;
    TreeHasParent(nodes, p);
    assert path <= Up(p);
    assert Up(p) in dirs && p !in dirs;
    TopDownMore(path, dirs, p);
  }

  lemma TopDownMore(path: Path, dirs: seq<Path>, p: Path)
    requires TopDown(path, dirs) && p != [] && Up(p) in dirs && p !in dirs
    ensures TopDown(path, dirs + [p])
  {
    var more := dirs + [p];
    assert more[..|dirs|] == dirs;
    forall i | 0 < i < |dirs|
      ensures Up(dirs[i]) in more[..i]
    {
      assert more[..i] == dirs[..i];
    }
  }

  lemma VisitFile(was: Nodes, nodes: Nodes, path: Path, dirs: seq<Path>, todo: set<Path>, p: Path)
    requires Stage(was, nodes, path, dirs, todo) && p in todo && p in nodes && nodes[p].File? && path <= p
    ensures Stage(was, nodes - {p}, path, dirs, todo - {p})
  {
    hide TopDown, IsTree;
    FilesAreChildless(nodes, p);
    LeafRemoval(nodes, p);
  }

  /** The last directory noted is empty once everything has been visited. */
  lemma LastIsEmpty(was: Nodes, nodes: Nodes, path: Path, dirs: seq<Path>)
    requires Stage(was, nodes, path, dirs, {}) && dirs != []
    ensures Childless(nodes, dirs[|dirs| - 1])
  {
    hide IsTree;
    var n := |dirs| - 1;
    forall q | q in nodes && q != []
      ensures Up(q) != dirs[n]
    {
      if path <= q {
        var i :| 0 <= i < |dirs| && dirs[i] == q;
        if i > 0 {
          var j :| 0 <= j < i && dirs[..i][j] == Up(q);
        } else {
          assert |Up(q)| < |path|;
          assert dirs[n] in dirs && path <= dirs[n];
        }
      } else {
        assert Up(q) <= q;
        assert dirs[n] in dirs && path <= dirs[n];
      }
    }
  }

  lemma RemoveLast(was: Nodes, nodes: Nodes, path: Path, dirs: seq<Path>)
    requires Stage(was, nodes, path, dirs, {}) && dirs != [] && dirs[|dirs| - 1] != []
    ensures Stage(was, nodes - {dirs[|dirs| - 1]}, path, dirs[..|dirs| - 1], {})
  {
    hide IsTree, TopDown;
    LastIsEmpty(was, nodes, path, dirs);
    var n := |dirs| - 1;
    var init, last := dirs[..n], dirs[n];
    assert dirs == init + [last];
    assert last in dirs && path <= last;
    LeafRemoval(nodes, last);
    TopDownInit(path, dirs);
    forall q
      ensures q in nodes - {last} && path <= q <==> q in init
    {
      assert q in dirs <==> q in init || q == last;
    }
  }

  lemma TopDownInit(path: Path, dirs: seq<Path>)
    requires TopDown(path, dirs) && dirs != []
    ensures TopDown(path, dirs[..|dirs| - 1]) && dirs[|dirs| - 1] !in dirs[..|dirs| - 1]
  {
    hide Up;
    var n := |dirs| - 1;
    var init := dirs[..n];
    assert forall i :: 0 <= i < n ==> init[i] == dirs[i];
    forall i | 0 < i < n
      ensures init[i] != [] && Up(init[i]) in init[..i]
    {
      assert init[i] == dirs[i] && init[..i] == dirs[..i];
    }
    LastIsNew(path, dirs);
  }

  lemma LastIsNew(path: Path, dirs: seq<Path>)
    requires TopDown(path, dirs) && dirs != []
    ensures dirs[|dirs| - 1] !in dirs[..|dirs| - 1]
  {
    hide Up;
    var n := |dirs| - 1;
    forall i | 0 <= i < n
      ensures dirs[..n][i] != dirs[n]
    {
      assert dirs[..n][i] == dirs[i];
    }
  }

  lemma OnlyRootLeft(was: Nodes, nodes: Nodes, path: Path, dirs: seq<Path>)
    requires Stage(was, nodes, path, dirs, {}) && IsTree(was) && path in was
    requires dirs == [] || (dirs == [path] && path == [])
    ensures nodes == Pruned(was, path)
  {
  }

  const EVERYTHING := Options(true, true, true)

  lemma FirstStage(nodes: Nodes, path: Path, coming: set<Path>)
    requires IsTree(nodes) && path in nodes && nodes[path] == Dir
    requires coming == set p | p in nodes && Wanted(EVERYTHING, nodes[p]) && Below(EVERYTHING, path, p)
    ensures Stage(nodes, nodes, path, [path], coming)
  {
    hide IsTree;
    forall q | q in nodes
      ensures path <= q <==> q == path || path < q
    {
    }
  }

  /** What one round of the visiting loop relies on. */
  ghost predicate Visiting(current: Found, nodes: Nodes, path: Path, entries: seq<Info>, at: nat, coming: set<Path>) {
    if current.Done? then coming == {}
    else
      && current.path !in coming && path < current.path && Up(current.path) !in coming
      && current.path in nodes && at < |entries| && entries[at] == Info(Name(current.path), nodes[current.path])
  }

  lemma YieldsVisiting(was: Nodes, nodes: Nodes, path: Path, dirs: seq<Path>, before: set<Path>, after: set<Path>,
                       r: Found, entries: seq<Info>, at: nat)
    requires Yields(EVERYTHING, nodes, before, after, r, entries, at)
    requires Stage(was, nodes, path, dirs, before) && dirs != []
    ensures Visiting(r, nodes, path, entries, at, after) && Todo(r, after) == before
  {
    hide Stage;
    StageIsBelow(was, nodes, path, dirs, before);
    assert r.Entry? ==> Up(r.path) < r.path;
  }

  /** The visiting loop of DeleteFile: unlinks the files, notes the directories. */
  method DeleteFilesIn(disk: Disk, path: Path) returns (success: bool, directories: seq<Path>)
    requires IsTree(disk.nodes) && path in disk.nodes && disk.nodes[path] == Dir
    modifies disk
    ensures success && directories != [] && Stage(old(disk.nodes), disk.nodes, path, directories, {})
  {
    hide Stage, IsTree, Inv, Rest, Unopened, Unread, Wanted, Below, Yields;
    success, directories := true, [path];
    ghost var was := disk.nodes;
    var traversal := new FileEnumerator(disk, path, EVERYTHING);
    FirstStage(was, path, traversal.Coming());
    ghost var before := traversal.Coming();
    var current := traversal.Next();
    YieldsVisiting(was, disk.nodes, path, directories, before, traversal.Coming(), current, traversal.entries, traversal.current);
    while success && current.Entry?
      invariant success && directories != [] && traversal.Valid()
      invariant traversal.disk == disk && traversal.options == EVERYTHING
      invariant Stage(was, disk.nodes, path, directories, Todo(current, traversal.Coming()))
      invariant Visiting(current, disk.nodes, path, traversal.entries, traversal.current, traversal.Coming())
      decreases |Todo(current, traversal.Coming())|
    {
      ghost var todo, p := Todo(current, traversal.Coming()), current.path;
      assert todo - {p} == traversal.Coming();
      if traversal.entries[traversal.current].node.Dir? {
        VisitDirectory(was, disk.nodes, path, directories, todo, p);
        directories := directories + [current.path];
      } else {
        VisitFile(was, disk.nodes, path, directories, todo, p);
        RemovalKeepsInv(EVERYTHING, disk.nodes, traversal.At(), traversal.current + 1, p);
        success := disk.Unlink(current.path);
      }
      before := traversal.Coming();
      current := traversal.Next();
      YieldsVisiting(was, disk.nodes, path, directories, before, traversal.Coming(), current, traversal.entries, traversal.current);
    }
  }

  lemma StageIsBelow(was: Nodes, nodes: Nodes, path: Path, dirs: seq<Path>, todo: set<Path>)
    requires Stage(was, nodes, path, dirs, todo) && dirs != []
    ensures forall p :: p in todo ==> p in nodes && path < p
  {
    hide IsTree;
    assert dirs[0] == path && path in dirs;
    forall p | p in todo
      ensures path < p
    {
      assert p != path && path <= p;
    }
  }

  /** The removing loop of DeleteFile: each directory is empty when its turn comes. */
  method DeleteDirectories(disk: Disk, path: Path, noted: seq<Path>, ghost was: Nodes) returns (success: bool)
    requires Stage(was, disk.nodes, path, noted, {}) && noted != [] && IsTree(was) && path in was
    modifies disk
    ensures success <==> path != []
    ensures disk.nodes == Pruned(was, path)
  {
    hide IsTree, Pruned, TopDown;
    success := true;
    var directories := noted;
    while success && directories != []
      invariant success ==> Stage(was, disk.nodes, path, directories, {})
      invariant success && path == [] ==> directories != []
      invariant !success ==> path == [] && disk.nodes == Pruned(was, path)
      decreases success, |directories|
    {
      var n := |directories| - 1;
      LastIsEmpty(was, disk.nodes, path, directories);
      assert directories[n] in directories;
      ghost var nodes := disk.nodes;
      success := disk.Rmdir(directories[n]);
      if success {
        RemoveLast(was, nodes, path, directories);
        OnlyLastIsRoot(was, nodes, path, directories);
      } else {
        OnlyLastIsRoot(was, nodes, path, directories);
        OnlyRootLeft(was, nodes, path, directories);
      }
      directories := directories[..n];
    }
    if success {
      OnlyRootLeft(was, disk.nodes, path, directories);
    }
  }

  lemma OnlyLastIsRoot(was: Nodes, nodes: Nodes, path: Path, dirs: seq<Path>)
    requires Stage(was, nodes, path, dirs, {}) && dirs != []
    ensures dirs[0] == path && (dirs[|dirs| - 1] == [] <==> dirs == [path] && path == [])
  {
    hide IsTree;
    if |dirs| > 1 {
      assert dirs[|dirs| - 1] != [];
    }
  }

  method DeleteFile(disk: Disk, path: Path, recursive: bool) returns (success: bool)
    requires IsTree(disk.nodes)
    modifies disk
    ensures IsTree(disk.nodes)
    ensures path !in old(disk.nodes) ==> success && disk.nodes == old(disk.nodes)
    ensures path in old(disk.nodes) && old(disk.nodes)[path].File? ==> success && disk.nodes == Pruned(old(disk.nodes), path)
    ensures path in old(disk.nodes) && old(disk.nodes)[path].Dir? && recursive ==>
      disk.nodes == Pruned(old(disk.nodes), path) && (success <==> path != [])
    ensures path in old(disk.nodes) && old(disk.nodes)[path].Dir? && !recursive ==>
      && (success <==> path != [] && Childless(old(disk.nodes), path))
      && disk.nodes == if success then old(disk.nodes) - {path} else old(disk.nodes)
  {
    if path !in disk.nodes {
      return true;
    }
    if disk.nodes[path].File? {
      FileIsLeaf(disk.nodes, path);
      success := disk.Unlink(path);
      return;
    }
    if !recursive {
      ghost var nodes := disk.nodes;
      success := disk.Rmdir(path);
      if success {
        LeafRemoval(nodes, path);
      }
      return;
    }
    ghost var was := disk.nodes;
    var directories;
    success, directories := DeleteFilesIn(disk, path);
    success := DeleteDirectories(disk, path, directories, was);
    PrunedIsTree(was, path);
  }

  lemma PrunedIsTree(nodes: Nodes, path: Path)
    requires IsTree(nodes)
    ensures IsTree(Pruned(nodes, path))
  {
    forall q | q in Pruned(nodes, path) && q != []
      ensures Up(q) in Pruned(nodes, path)
    {
      assert Up(q) <= q;
    }
  }

  lemma FileIsLeaf(nodes: Nodes, p: Path)
    requires IsTree(nodes) && p in nodes && nodes[p].File?
    ensures IsTree(nodes - {p}) && nodes - {p} == Pruned(nodes, p)
  {
    FilesAreChildless(nodes, p);
    LeafRemoval(nodes, p);
    forall q | q in nodes && q != p
      ensures !(p <= q)
    {
      if p < q {
        AncestorsAreDirectories(nodes, p, q);
      }
    }
  }

  // ----- ComputeDirectorySize -----------------------------------------------------------------------

  const FILES := Options(true, true, false)

  ghost function SizeOf(nodes: Nodes, p: Path): nat {
    if p in nodes && nodes[p].File? then nodes[p].size else 0
  }

  /** The sum over a set of locations. */
  ghost function SumOf(nodes: Nodes, s: set<Path>): nat {
    if s == {} then 0 else
      var p :| p in s;
      SizeOf(nodes, p) + SumOf(nodes, s - {p})
  }

  lemma {:induction false} SumWithout(nodes: Nodes, s: set<Path>, p: Path)
    requires p in s
    ensures SumOf(nodes, s) == SizeOf(nodes, p) + SumOf(nodes, s - {p})
    decreases |s|
  {
    hide SizeOf;
    var q :| q in s && SumOf(nodes, s) == SizeOf(nodes, q) + SumOf(nodes, s - {q});
    if q != p {
      SumWithout(nodes, s - {q}, p);
      SumWithout(nodes, s - {p}, q);
      assert s - {q} - {p} == s - {p} - {q};
    }
  }

  lemma {:induction false} SumOfUnion(nodes: Nodes, a: set<Path>, b: set<Path>)
    requires a !! b
    ensures SumOf(nodes, a + b) == SumOf(nodes, a) + SumOf(nodes, b)
    decreases |a|
  {
    hide SizeOf;
    if a == {} {
      assert a + b == b;
    } else {
      var p :| p in a;
      SumWithout(nodes, a, p);
      SumWithout(nodes, a + b, p);
      SumOfUnion(nodes, a - {p}, b);
      assert a + b - {p} == (a - {p}) + b;
    }
  }

  /** Everything below a location. */
  ghost function Inside(nodes: Nodes, d: Path): set<Path> {
    set p | p in nodes && d < p
  }

  ghost function TreeSize(nodes: Nodes, d: Path): nat {
    SumOf(nodes, Inside(nodes, d))
  }

  /** The sizes add up child by child: a child counts for itself and for what it holds. */
  lemma SizeByChild(nodes: Nodes, d: Path, c: Path)
    requires IsTree(nodes) && IsChild(nodes, d, c)
    ensures TreeSize(nodes, d) == TreeSize(Pruned(nodes, c), d) + TreeSize(nodes, c) + if nodes[c].File? then nodes[c].size else 0
  {
    hide IsTree, SumOf;
    var rest := Pruned(nodes, c);
    var below := Inside(nodes, c) + {c};
    assert d < c;
    forall p | p in nodes
      ensures d < p <==> p in Inside(rest, d) || p in below
    {
      assert c <= p <==> c < p || c == p;
    }
    assert Inside(nodes, d) == Inside(rest, d) + below;
    SumOfUnion(nodes, Inside(rest, d), below);
    SumWithout(nodes, below, c);
    assert below - {c} == Inside(nodes, c);
    SumAgrees(nodes, rest, Inside(rest, d));
  }

  lemma SomethingInside(nodes: Nodes, d: Path, p: Path)
    requires IsTree(nodes) && p in nodes && d < p
    ensures !Childless(nodes, d)
  {
    var c := p[..|d| + 1];
    if c != p {
      AncestorsAreDirectories(nodes, c, p);
    }
    assert IsChild(nodes, d, c);
  }

  lemma SizeOfNothing(nodes: Nodes, d: Path)
    requires IsTree(nodes) && Childless(nodes, d)
    ensures TreeSize(nodes, d) == 0
  {
    hide SumOf;
    forall p | p in nodes
      ensures !(d < p)
    {
      if d < p {
        SomethingInside(nodes, d, p);
      }
    }
    assert Inside(nodes, d) == {};
    NothingToSum(nodes, {});
  }

  lemma {:induction false} SumAgrees(a: Nodes, b: Nodes, s: set<Path>)
    requires forall p :: p in s ==> SizeOf(a, p) == SizeOf(b, p)
    ensures SumOf(a, s) == SumOf(b, s)
    decreases |s|
  {
    hide SizeOf;
    if p :| p in s {
      SumWithout(a, s, p);
      SumWithout(b, s, p);
      SumAgrees(a, b, s - {p});
    }
  }

  lemma FilesCount(nodes: Nodes, d: Path, files: set<Path>)
    requires files == set p | p in nodes && Wanted(FILES, nodes[p]) && Below(FILES, d, p)
    ensures SumOf(nodes, files) == TreeSize(nodes, d)
  {
    hide SumOf;
    var others := Inside(nodes, d) - files;
    assert files + others == Inside(nodes, d);
    SumOfUnion(nodes, files, others);
    NothingToSum(nodes, others);
  }

  lemma {:induction false} NothingToSum(nodes: Nodes, s: set<Path>)
    requires forall p :: p in s ==> SizeOf(nodes, p) == 0
    ensures SumOf(nodes, s) == 0
    decreases |s|
  {
    hide SizeOf;
    if p :| p in s {
      SumWithout(nodes, s, p);
      NothingToSum(nodes, s - {p});
    }
  }

  method ComputeDirectorySize(disk: Disk, root: Path) returns (size: nat)
    requires IsTree(disk.nodes)
    ensures size == TreeSize(disk.nodes, root)
  {
    hide Inv, Rest, Unopened, Unread, SumOf, TreeSize, Below, IsTree, Yields;
    size := 0;
    var traversal := new FileEnumerator(disk, root, FILES);
    FilesCount(disk.nodes, root, traversal.Coming());
    ghost var before := traversal.Coming();
    var current := traversal.Next();
    YieldsMeasured(disk.nodes, before, traversal.Coming(), current, traversal.entries, traversal.current);
    while current.Entry?
      invariant traversal.Valid() && traversal.disk == disk && traversal.options == FILES
      invariant TreeSize(disk.nodes, root) == size + SumOf(disk.nodes, Todo(current, traversal.Coming()))
      invariant Measured(current, disk.nodes, traversal.entries, traversal.current, traversal.Coming())
      decreases |Todo(current, traversal.Coming())|
    {
      before := traversal.Coming();
      SumWithout(disk.nodes, before + {current.path}, current.path);
      assert before + {current.path} - {current.path} == before;
      size := size + traversal.entries[traversal.current].node.size;
      current := traversal.Next();
      YieldsMeasured(disk.nodes, before, traversal.Coming(), current, traversal.entries, traversal.current);
    }
    NothingToSum(disk.nodes, {});
  }

  lemma YieldsMeasured(nodes: Nodes, before: set<Path>, after: set<Path>, r: Found, entries: seq<Info>, at: nat)
    requires Yields(FILES, nodes, before, after, r, entries, at)
    ensures Measured(r, nodes, entries, at, after) && Todo(r, after) == before
  {
  }

  /** GetInfo after a call of Next describes the file just returned. */
  ghost predicate Measured(current: Found, nodes: Nodes, entries: seq<Info>, at: nat, coming: set<Path>) {
    if current.Done? then coming == {}
    else
      && current.path !in coming && current.path in nodes && nodes[current.path].File?
      && at < |entries| && entries[at].node == nodes[current.path]
  }
}
