/** A symlink-free file system as a finite tree, and what a directory listing shows of it. */
module FileTree {

  /** A location: the names that lead to it from the root of the file system. */
  type Path = seq<string>

  datatype Node = File(size: nat) | Dir

  type Nodes = map<Path, Node>

  datatype Info = Info(name: string, node: Node)

  /** recursive_ and the FILES and DIRECTORIES bits of file_type_. */
  datatype Options = Options(recursive: bool, files: bool, directories: bool)

  function Up(p: Path): Path
    requires p != []
  {
    p[..|p| - 1]
  }

  function Name(p: Path): string
    requires p != []
  {
    p[|p| - 1]
  }

  predicate IsDots(name: string) {
    name == "." || name == ".."
  }

  ghost predicate IsTree(nodes: Nodes) {
    && [] in nodes && nodes[[]] == Dir
    && forall p :: p in nodes && p != [] ==> Up(p) in nodes && nodes[Up(p)] == Dir && !IsDots(Name(p))
  }

  lemma {:induction false} AncestorsAreDirectories(nodes: Nodes, q: Path, p: Path)
    requires IsTree(nodes) && p in nodes && q < p
    ensures q in nodes && nodes[q] == Dir
    decreases |p|
  {
    if |q| == |p| - 1 {
      assert q == Up(p);
    } else {
      AncestorsAreDirectories(nodes, q, Up(p));
    }
  }

  predicate IsChild(nodes: Nodes, d: Path, p: Path) {
    p in nodes && p != [] && Up(p) == d
  }

  ghost predicate Childless(nodes: Nodes, d: Path) {
    forall q :: !IsChild(nodes, d, q)
  }

  lemma LeafRemoval(nodes: Nodes, p: Path)
    requires IsTree(nodes) && p in nodes && p != [] && Childless(nodes, p)
    ensures IsTree(nodes - {p})
  {
    forall q | q in nodes - {p} && q != []
      ensures Up(q) in nodes - {p}
    {
      assert !IsChild(nodes, p, q);
    }
  }

  lemma TreeHasParent(nodes: Nodes, p: Path)
    requires IsTree(nodes) && p in nodes && p != []
    ensures Up(p) in nodes && nodes[Up(p)] == Dir && !IsDots(Name(p))
  {
  }

  lemma FilesAreChildless(nodes: Nodes, p: Path)
    requires IsTree(nodes) && p in nodes && nodes[p].File?
    ensures p != [] && Childless(nodes, p)
  {
  }

  /** What readdir may report of a directory: "." and ".." and each child once, in any order. */
  ghost predicate IsListing(nodes: Nodes, d: Path, entries: seq<Info>) {
    && (forall i :: 0 <= i < |entries| ==>
      IsDots(entries[i].name) || (d + [entries[i].name] in nodes && nodes[d + [entries[i].name]] == entries[i].node))
    && (forall p :: IsChild(nodes, d, p) ==> Info(Name(p), nodes[p]) in entries)
    && (forall i, j :: 0 <= i < j < |entries| ==> entries[i].name != entries[j].name)
  }

  predicate Wanted(o: Options, n: Node) {
    if n.Dir? then o.directories else o.files
  }

  // ----- What one directory contributes -------------------------------------------------------------

  /** The entries of a listing that are yielded. */
  function Kept(o: Options, entries: seq<Info>): seq<Info> {
    if entries == [] then []
    else
      var e := entries[|entries| - 1];
      Kept(o, entries[..|entries| - 1]) + if !IsDots(e.name) && Wanted(o, e.node) then [e] else []
  }

  /** The directories of a listing that are searched later. */
  function Deeper(o: Options, d: Path, entries: seq<Info>): seq<Path> {
    if entries == [] then []
    else
      var e := entries[|entries| - 1];
      Deeper(o, d, entries[..|entries| - 1]) + if !IsDots(e.name) && o.recursive && e.node.Dir? then [d + [e.name]] else []
  }

  predicate DistinctNames(s: seq<Info>) {
    forall i, j :: 0 <= i < j < |s| ==> s[i].name != s[j].name
  }

  lemma {:induction false} KeptEntries(o: Options, entries: seq<Info>)
    requires DistinctNames(entries)
    ensures DistinctNames(Kept(o, entries))
    ensures forall e :: e in Kept(o, entries) <==> e in entries && !IsDots(e.name) && Wanted(o, e.node)
  {
    if entries != [] {
      var init := entries[..|entries| - 1];
      KeptEntries(o, init);
      var k := Kept(o, init);
      forall i | 0 <= i < |k|
        ensures k[i].name != entries[|entries| - 1].name
      {
        assert k[i] in init;
      }
      assert entries == init + [entries[|entries| - 1]];
    }
  }

  ghost predicate Incomparable(s: seq<Path>) {
    forall i, j :: 0 <= i < |s| && 0 <= j < |s| && i != j ==> !(s[i] <= s[j])
  }

  lemma {:induction false} DeeperEntries(o: Options, d: Path, entries: seq<Info>)
    requires DistinctNames(entries)
    ensures forall q :: q in Deeper(o, d, entries) <==>
      q != [] && Up(q) == d && o.recursive && !IsDots(Name(q)) && Info(Name(q), Dir) in entries
    ensures Incomparable(Deeper(o, d, entries))
  {
    if entries != [] {
      var init, e := entries[..|entries| - 1], entries[|entries| - 1];
      DeeperEntries(o, d, init);
      assert entries == init + [e];
      var s, q := Deeper(o, d, init), d + [e.name];
      assert Up(q) == d && Name(q) == e.name;
      forall p | p in Deeper(o, d, entries)
        ensures p != [] && Up(p) == d && o.recursive && !IsDots(Name(p)) && Info(Name(p), Dir) in entries
      {
        assert p in s || p == q;
      }
      forall p | p != [] && Up(p) == d && o.recursive && !IsDots(Name(p)) && Info(Name(p), Dir) in entries
        ensures p in Deeper(o, d, entries)
      {
        if Info(Name(p), Dir) !in init {
          assert p == Up(p) + [Name(p)];
        }
      }
      forall i | 0 <= i < |s|
        ensures !(s[i] <= q) && !(q <= s[i])
      {
        assert s[i] in s;
        assert s[i] == d + [Name(s[i])];
        SiblingsApart(d, Name(s[i]), e.name);
      }
    }
  }

  lemma SiblingsApart(d: Path, a: string, b: string)
    requires a != b
    ensures !(d + [a] <= d + [b])
  {
    assert (d + [a])[|d|] == a && (d + [b])[|d|] == b;
  }
}
