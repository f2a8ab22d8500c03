/** Path algebra of base/file_path.cc on POSIX paths: one separator, no drive letters. */
module FilePath {

  import opened Reversal

  const SEPARATOR := '/'

  // ----- Trailing separators ------------------------------------------------------------------------

  /** The path without any of its trailing separators. */
  function TrimEnd(p: string): (r: string)
    ensures r <= p
    ensures forall i :: |r| <= i < |p| ==> p[i] == SEPARATOR
    ensures r != "" ==> r[|r| - 1] != SEPARATOR
  {
    if p != "" && p[|p| - 1] == SEPARATOR then TrimEnd(p[..|p| - 1]) else p
  }

  /** StripTrailingSeparators: a bare "//" stays, other bare separators become "/". */
  function Stripped(p: string): string {
    if p == "" || p == "//" then p else if TrimEnd(p) == "" then "/" else TrimEnd(p)
  }

  lemma TrimEndUnique(p: string, r: string)
    requires r <= p && (forall i :: |r| <= i < |p| ==> p[i] == SEPARATOR) && (r != "" ==> r[|r| - 1] != SEPARATOR)
    ensures TrimEnd(p) == r
  {
    var t := TrimEnd(p);
    assert r != "" ==> p[|r| - 1] == r[|r| - 1];
    assert t != "" ==> p[|t| - 1] == t[|t| - 1];
    assert |r| == |t|;
  }

  /** The loop of StripTrailingSeparatorsInternal; with no drive letter its `start` is 1. */
  method StripTrailingSeparatorsInternal(p: string) returns (path: string)
    ensures path == Stripped(p)
  {
    path := p;
    var start, lastStripped := 1, -1;
    var pos := |p|;
    while pos > start && p[pos - 1] == SEPARATOR
      invariant 0 <= pos <= |p| && path <= p
      invariant forall i :: pos <= i < |p| ==> p[i] == SEPARATOR
      invariant lastStripped == if pos == |p| || (pos == 1 && |path| == 2) then -1 else pos + 1
      invariant |path| == pos || (pos == 1 && path == p == "//")
      invariant (pos >= 1 || p == "") && (p == "//" ==> path == p)
    {
      if pos != start + 1 || lastStripped == start + 2 || path[start - 1] != SEPARATOR {
        path := path[..pos - 1];
        lastStripped := pos;
      }
      pos := pos - 1;
    }
    StrippedIs(p, path, pos);
  }

  lemma StrippedIs(p: string, path: string, pos: nat)
    requires pos <= |p| && path <= p
    requires forall i :: pos <= i < |p| ==> p[i] == SEPARATOR
    requires |path| == pos || (pos == 1 && path == p == "//")
    requires pos <= 1 || p[pos - 1] != SEPARATOR
    requires p == "//" ==> path == p
    requires p == "" || pos >= 1
    ensures path == Stripped(p)
  {
    if p != "" && p != "//" {
      if p[pos - 1] == SEPARATOR {
        TrimEndUnique(p, "");
        assert path == "/";
      } else {
        TrimEndUnique(p, path);
      }
    }
  }

  // ----- The last component -------------------------------------------------------------------------

  /** The separator-free end of a path. */
  function LastName(p: string): (r: string)
    ensures |r| <= |p| && r == p[|p| - |r|..]
    ensures forall i :: 0 <= i < |r| ==> r[i] != SEPARATOR
    ensures |r| < |p| ==> p[|p| - |r| - 1] == SEPARATOR
  {
    if p == "" || p[|p| - 1] == SEPARATOR then "" else LastName(p[..|p| - 1]) + [p[|p| - 1]]
  }

  /** What comes before it: nothing, or something that ends in a separator. */
  function Before(p: string): (r: string)
    ensures r + LastName(p) == p
    ensures r != "" ==> r[|r| - 1] == SEPARATOR
  {
    p[..|p| - |LastName(p)|]
  }

  /** find_last_of: -1 for npos. */
  function LastSeparator(p: string): (k: int)
    ensures k == |Before(p)| - 1
  {
    |p| - |LastName(p)| - 1
  }

  /** The resize of DirName: up to the last separator, keeping a leading "/" or "//". */
  function CutName(path: string): string {
    var k := LastSeparator(path);
    if k == -1 then ""
    else if k == 0 then path[..1]
    else if k == 1 && path[0] == SEPARATOR then path[..2]
    else path[..k]
  }

  function DirName(p: string): string {
    var stripped := Stripped(CutName(Stripped(p)));
    if stripped == "" then "." else stripped
  }

  function BaseName(p: string): string {
    var path := Stripped(p);
    var k := LastSeparator(path);
    if k != -1 && k < |path| - 1 then path[k + 1..] else path
  }

  predicate AllSeparators(p: string) {
    forall i :: 0 <= i < |p| ==> p[i] == SEPARATOR
  }

  /** The path names something: it is not made of separators only. */
  predicate HasName(p: string) {
    TrimEnd(p) != ""
  }

  lemma NamelessIsSeparators(p: string)
    ensures HasName(p) <==> !AllSeparators(p)
  {
    if HasName(p) {
      var t := TrimEnd(p);
      assert p[|t| - 1] != SEPARATOR;
    }
  }

  lemma CutBefore(path: string)
    ensures var before := Before(path);
      CutName(path) == if before == "" || before == "/" || before == "//" then before else before[..|before| - 1]
  {
    hide LastName;
    var before := Before(path);
    assert path[..|before|] == before;
    if |before| >= 1 {
      assert path[..|before| - 1] == before[..|before| - 1];
      assert path[0] == before[0];
    }
    if |before| == 1 {
      assert before == "/";
    } else if |before| == 2 && before[0] == SEPARATOR {
      assert before == "//";
    }
  }

  /** The directory of a path that names something, from what comes before its last name. */
  function Parent(before: string): string {
    if before == "" then "."
    else if before == "/" || before == "//" then before
    else Stripped(before[..|before| - 1])
  }

  lemma StrippedNonEmpty(p: string)
    ensures Stripped(p) == "" <==> p == ""
    ensures |Stripped(p)| <= |p|
    ensures Stripped("/") == "/" && Stripped("//") == "//"
  {
    assert TrimEnd("/") == "";
  }

  lemma NamedBase(p: string)
    requires HasName(p)
    ensures LastName(TrimEnd(p)) != "" && BaseName(p) == LastName(TrimEnd(p))
  {
    hide TrimEnd;
    NamedNotBare(p);
    var path := TrimEnd(p);
    assert path[|path| - 1] != SEPARATOR;
    assert LastName(path) == path[|path| - |LastName(path)|..];
  }

  lemma NamedDir(p: string)
    requires HasName(p)
    ensures DirName(p) == Parent(Before(TrimEnd(p)))
  {
    hide TrimEnd, LastName, CutName, Stripped;
    NamedNotBare(p);
    CutBefore(TrimEnd(p));
    StrippedNonEmpty(CutName(TrimEnd(p)));
  }

  /** A path that names something, taken apart. */
  lemma NamedPath(p: string)
    requires HasName(p)
    ensures LastName(TrimEnd(p)) != "" && BaseName(p) == LastName(TrimEnd(p))
    ensures DirName(p) == Parent(Before(TrimEnd(p)))
  {
    hide TrimEnd, LastName, DirName, BaseName, Parent, Before;
    NamedBase(p);
    NamedDir(p);
  }

  lemma NamedNotBare(p: string)
    requires HasName(p)
    ensures Stripped(p) == TrimEnd(p)
  {
    NamelessIsSeparators(p);
  }

  lemma NamelessPath(p: string)
    requires p != "" && !HasName(p)
    ensures AllSeparators(BaseName(p)) && BaseName(p) == DirName(p) == if p == "//" then "//" else "/"
  {
    NamelessIsSeparators(p);
    assert LastName("/") == "" && LastName("//") == "";
    assert TrimEnd("/") == "" && TrimEnd("//") == "";
  }

  /** Going up shortens a path, or turns a one-letter name into "."; it stops at ".", "/" and "//". */
  lemma GoingUpEnds(p: string)
    requires p != "" && DirName(p) != p
    ensures DirName(p) != ""
    ensures |DirName(p)| < |p| || (|DirName(p)| == |p| && DirName(p) == "." && p != ".")
  {
    hide TrimEnd, LastName, CutName, DirName, BaseName, Stripped;
    if HasName(p) {
      NamedPath(p);
      var before := Before(TrimEnd(p));
      if before != "" {
        StrippedNonEmpty(before[..|before| - 1]);
      }
    } else {
      NamelessPath(p);
    }
  }

  // ----- Segments: the reference --------------------------------------------------------------------

  function FirstSeparator(p: string): (k: nat)
    ensures k <= |p|
    ensures forall i :: 0 <= i < k ==> p[i] != SEPARATOR
    ensures k < |p| ==> p[k] == SEPARATOR
  {
    if p == "" || p[0] == SEPARATOR then 0 else 1 + FirstSeparator(p[1..])
  }

  /** The non-empty pieces between separators, left to right. */
  function Segments(p: string): seq<string>
    decreases |p|
  {
    if p == "" then []
    else if p[0] == SEPARATOR then Segments(p[1..])
    else [p[..FirstSeparator(p)]] + Segments(p[FirstSeparator(p)..])
  }

  lemma {:induction false} FirstSeparatorIs(p: string, k: nat)
    requires k <= |p| && (forall i :: 0 <= i < k ==> p[i] != SEPARATOR) && (k < |p| ==> p[k] == SEPARATOR)
    ensures FirstSeparator(p) == k
    decreases |p|
  {
    if k > 0 {
      FirstSeparatorIs(p[1..], k - 1);
    }
  }

  lemma NoneInEmpty()
    ensures Segments("") == []
  {
  }

  lemma SegmentsSkip(p: string)
    requires p != "" && p[0] == SEPARATOR
    ensures Segments(p) == Segments(p[1..])
  {
  }

  lemma SegmentsHead(p: string)
    requires p != "" && p[0] != SEPARATOR
    ensures Segments(p) == [p[..FirstSeparator(p)]] + Segments(p[FirstSeparator(p)..])
  {
  }

  /** Segments do not span a separator. */
  lemma {:induction false} SegmentsJoin(a: string, b: string)
    requires a != "" ==> a[|a| - 1] == SEPARATOR
    ensures Segments(a + b) == Segments(a) + Segments(b)
    decreases |a|
  {
    hide Segments, FirstSeparator;
    if a == "" {
      NoneInEmpty();
      assert a + b == b;
    } else if a[0] == SEPARATOR {
      SegmentsJoin(a[1..], b);
      SegmentsSkip(a);
      SegmentsSkip(a + b);
      assert (a + b)[1..] == a[1..] + b;
    } else {
      var k := FirstSeparator(a);
      FirstSeparatorIs(a + b, k);
      assert (a + b)[..k] == a[..k];
      assert (a + b)[k..] == a[k..] + b;
      SegmentsJoin(a[k..], b);
      SegmentsHead(a);
      SegmentsHead(a + b);
    }
  }

  lemma SegmentsOfName(name: string)
    requires name != "" && forall i :: 0 <= i < |name| ==> name[i] != SEPARATOR
    ensures Segments(name) == [name]
  {
    FirstSeparatorIs(name, |name|);
    assert name[..|name|] == name && name[|name|..] == "";
  }

  lemma {:induction false} SegmentsOfSeparators(p: string)
    requires AllSeparators(p)
    ensures Segments(p) == []
    decreases |p|
  {
    if p != "" {
      SegmentsOfSeparators(p[1..]);
    }
  }

  lemma {:induction false} SegmentsTrail(a: string, t: string)
    requires AllSeparators(t)
    ensures Segments(a + t) == Segments(a)
    decreases |a|
  {
    if a == "" {
      SegmentsOfSeparators(t);
      assert a + t == t;
    } else if a[0] == SEPARATOR {
      SegmentsTrail(a[1..], t);
      assert (a + t)[1..] == a[1..] + t;
    } else {
      var k := FirstSeparator(a);
      SegmentsTrail(a[k..], t);
      if k == |a| && t != "" {
        assert t[0] == SEPARATOR;
      }
      FirstSeparatorIs(a + t, k);
      assert (a + t)[..k] == a[..k];
      assert (a + t)[k..] == a[k..] + t;
    }
  }

  lemma SegmentsOfStripped(p: string)
    ensures Segments(Stripped(p)) == Segments(p) == Segments(TrimEnd(p))
  {
    var t := TrimEnd(p);
    SegmentsTrail(t, p[|t|..]);
    assert t + p[|t|..] == p;
    SegmentsOfSeparators("/");
  }

  /** The segments of a path that names something: those before its last name, and that name. */
  lemma SegmentsOfNamed(p: string)
    requires HasName(p)
    ensures var before := Before(TrimEnd(p));
      && Segments(p) == Segments(before) + [LastName(TrimEnd(p))]
      && (before != "" ==> Segments(before) == Segments(Stripped(before[..|before| - 1])))
  {
    hide TrimEnd, LastName, Stripped, Segments, Before;
    var path := TrimEnd(p);
    var before := Before(path);
    SegmentsOfStripped(p);
    NamedBase(p);
    SegmentsOfName(LastName(path));
    SegmentsJoin(before, LastName(path));
    if before != "" {
      SegmentsBefore(before);
    }
  }

  lemma SegmentsBefore(before: string)
    requires before != "" && before[|before| - 1] == SEPARATOR
    ensures Segments(before) == Segments(Stripped(before[..|before| - 1]))
  {
    hide Segments, Stripped;
    var q := before[..|before| - 1];
    SegmentsTrail(q, "/");
    assert q + "/" == before;
    SegmentsOfStripped(q);
  }

  // ----- GetComponents ------------------------------------------------------------------------------

  /** What the loop of GetComponents collects, in path order. */
  function Walk(p: string): seq<string>
    requires p != ""
    decreases |p|, p != "."
  {
    if DirName(p) == p then
      var base := BaseName(p);
      if base != "" && base != "." then [base] else []
    else
      GoingUpEnds(p);
      Walk(DirName(p)) + if AllSeparators(BaseName(p)) then [] else [BaseName(p)]
  }

  lemma WalkUp(p: string, collected: seq<string>)
    requires p != "" && DirName(p) != p
    ensures DirName(p) != ""
    ensures var more := if AllSeparators(BaseName(p)) then collected else collected + [BaseName(p)];
      Walk(p) + Reversed(collected) == Walk(DirName(p)) + Reversed(more)
  {
    hide DirName, BaseName, AllSeparators, Reversed;
    GoingUpEnds(p);
    ReversedAppend(collected, BaseName(p));
  }

  lemma WalkTop(p: string, collected: seq<string>)
    requires p != "" && DirName(p) == p
    ensures var base := BaseName(p);
      Walk(p) + Reversed(collected) == Reversed(if base != "" && base != "." then collected + [base] else collected)
  {
    hide DirName, BaseName, AllSeparators, Reversed;
    ReversedAppend(collected, BaseName(p));
  }

  /** The loop goes up until the path is its own directory; the result is what it collected, reversed. */
  method GetComponents(p: string) returns (c: seq<string>)
    ensures c == Components(p)
  {
    hide DirName, BaseName, AllSeparators, Components, Reversed, Walk;
    if p == "" {
      NoComponents();
      return [];
    }
    var collected: seq<string> := [];
    var current := p;
    assert Reversed(collected) == [];
    assert Walk(p) + [] == Walk(p);
    while current != DirName(current)
      invariant current != ""
      invariant Walk(p) == Walk(current) + Reversed(collected)
      decreases |current|, current != "."
    {
      GoingUpEnds(current);
      WalkUp(current, collected);
      var base := BaseName(current);
      if !AllSeparators(base) {
        collected := collected + [base];
      }
      current := DirName(current);
    }
    WalkTop(current, collected);
    var base := BaseName(current);
    if base != "" && base != "." {
      collected := collected + [base];
    }
    c := Reversed(collected);
    WalkIsComponents(p);
  }

  function Lead(p: string): (n: nat)
    ensures n <= |p| && (forall i :: 0 <= i < n ==> p[i] == SEPARATOR) && (n < |p| ==> p[n] != SEPARATOR)
  {
    if p == "" || p[0] != SEPARATOR then 0 else 1 + Lead(p[1..])
  }

  /** Two or three separators before a name, or a bare "//", make the root "//". */
  function Root(p: string): string {
    if p == "//" || (HasName(p) && (Lead(p) == 2 || Lead(p) == 3)) then "//" else "/"
  }

  function DropDot(s: seq<string>): seq<string> {
    if s != [] && s[0] == "." then s[1..] else s
  }

  /** What GetComponents returns: the root of an absolute path and its segments; of a relative path the segments
      without a first "."; but a "." with separators after it keeps the dot. */
  function Components(p: string): seq<string> {
    if p == "" then []
    else if p[0] == SEPARATOR then [Root(p)] + Segments(p)
    else if Segments(p) == ["."] then (if p == "." then [] else ["."])
    else DropDot(Segments(p))
  }

  lemma NoComponents()
    ensures Components("") == []
  {
  }

  lemma WalkOfBare(p: string)
    requires p != "" && !HasName(p)
    ensures Walk(p) == Components(p)
  {
    NamelessIsSeparators(p);
    NamelessPath(p);
    SegmentsOfSeparators(p);
    if p != "/" && p != "//" {
      assert !HasName("/");
      NamelessPath("/");
      assert Walk("/") == ["/"];
    }
  }

  lemma {:induction false} WalkIsComponents(p: string)
    requires p != ""
    ensures Walk(p) == Components(p)
    decreases |p|, p != "."
  {
    hide DirName, BaseName, TrimEnd, LastName, Segments, Stripped, Lead;
    if !HasName(p) {
      WalkOfBare(p);
    } else if DirName(p) == p {
      WalkOfDot(p);
    } else {
      GoingUpEnds(p);
      WalkIsComponents(DirName(p));
      NamedPath(p);
      NameIsNotSeparators(LastName(TrimEnd(p)));
      ComponentsOfNamed(p);
    }
  }

  lemma NameIsNotSeparators(name: string)
    requires name != "" && forall i :: 0 <= i < |name| ==> name[i] != SEPARATOR
    ensures !AllSeparators(name)
  {
    assert name[0] != SEPARATOR;
  }

  /** Only "." among the named paths is its own directory. */
  lemma WalkOfDot(p: string)
    requires HasName(p) && DirName(p) == p
    ensures p == "." && Walk(p) == Components(p)
  {
    hide TrimEnd, LastName, Segments, Stripped, CutName;
    NamedPath(p);
    SegmentsOfName(".");
    var before := Before(TrimEnd(p));
    StrippedNonEmpty(if before == "" then "" else before[..|before| - 1]);
    assert before != "" ==> |Parent(before)| < |p|;
    assert p == ".";
    DotBase();
  }

  lemma DotBase()
    ensures BaseName(".") == "."
  {
    assert TrimEnd(".") == ".";
    assert LastName(".") == ".";
  }

  /** The first character survives going up, unless the path is a single name. */
  lemma FirstOfNamed(p: string)
    requires HasName(p) && Before(TrimEnd(p)) != ""
    ensures p != "" && DirName(p) != "" && DirName(p)[0] == p[0]
  {
    hide LastName, DirName;
    NamedDir(p);
    var before := Before(TrimEnd(p));
    assert before[0] == p[0];
    if before != "/" && before != "//" {
      assert |before| == 1 ==> before == "/";
      StrippedFirst(before[..|before| - 1]);
    }
  }

  lemma StrippedFirst(q: string)
    requires q != ""
    ensures Stripped(q) != "" && Stripped(q)[0] == q[0]
  {
  }

  lemma SoleName(p: string)
    requires HasName(p) && Before(TrimEnd(p)) == "" && p != "."
    ensures Components(p) == [LastName(TrimEnd(p))]
  {
    hide LastName, Segments, TrimEnd, Stripped, Lead, Root, Before, DropDot;
    SegmentsOfNamed(p);
    NamedBase(p);
    NoneInEmpty();
    var name := LastName(TrimEnd(p));
    assert "" + name == TrimEnd(p);
    assert name <= p && p[0] == name[0];
    assert Segments(p) == [name];
    SoleSegment(p, name);
  }

  lemma SoleSegment(p: string, name: string)
    requires p != "" && p[0] != SEPARATOR && p != "." && Segments(p) == [name]
    ensures Components(p) == [name]
  {
    hide Segments;
  }

  lemma SegmentsOfDir(p: string)
    requires HasName(p) && Before(TrimEnd(p)) != ""
    ensures Segments(p) == Segments(DirName(p)) + [LastName(TrimEnd(p))]
  {
    hide TrimEnd, LastName, Segments, Stripped, DirName;
    SegmentsOfNamed(p);
    NamedDir(p);
  }

  lemma {:induction false} LeadIs(p: string, n: nat)
    requires n <= |p| && (forall i :: 0 <= i < n ==> p[i] == SEPARATOR) && (n < |p| ==> p[n] != SEPARATOR)
    ensures Lead(p) == n
    decreases |p|
  {
    if n > 0 {
      LeadIs(p[1..], n - 1);
    }
  }

  lemma LeadOfPrefix(d: string, p: string)
    requires d <= p && Lead(d) < |d|
    ensures Lead(p) == Lead(d)
  {
    hide Lead;
    assert p[Lead(d)] == d[Lead(d)];
    LeadIs(p, Lead(d));
  }

  /** Cutting trailing separators leaves a name a name. */
  lemma TrimmedHasName(q: string)
    requires HasName(q)
    ensures HasName(TrimEnd(q)) && Stripped(q) == TrimEnd(q) && Lead(TrimEnd(q)) < |TrimEnd(q)|
  {
    hide TrimEnd, Lead, Stripped;
    var d := TrimEnd(q);
    NamedNotBare(q);
    TrimEndUnique(d, d);
    assert d[|d| - 1] != SEPARATOR;
  }

  lemma ParentOfBare(before: string)
    requires before != "" && AllSeparators(before)
    ensures Parent(before) == if |before| == 2 || |before| == 3 then "//" else "/"
  {
    hide TrimEnd;
    if |before| == 1 {
      assert before == "/";
    } else if |before| == 2 {
      assert before == "//";
    } else {
      var q := before[..|before| - 1];
      NamelessIsSeparators(q);
      assert |before| == 3 ==> q == "//";
      assert |before| > 3 ==> |q| > 2;
    }
  }

  lemma RootOfBare()
    ensures Root("/") == "/" && Root("//") == "//"
  {
    NamelessIsSeparators("/");
  }

  /** A name behind nothing but separators. */
  lemma RootOfFirstName(p: string)
    requires HasName(p) && Before(TrimEnd(p)) != "" && AllSeparators(Before(TrimEnd(p)))
    ensures Root(p) == Root(DirName(p))
  {
    hide LastName, DirName, TrimEnd, Stripped, Lead, Parent;
    NamedDir(p);
    NamedBase(p);
    var path := TrimEnd(p);
    var before, name := Before(path), LastName(path);
    assert path == before + name && path[|before|] == name[0] && p[|before|] == path[|before|];
    assert path[..|before|] == before;
    assert forall i :: 0 <= i < |before| ==> p[i] == before[i];
    LeadIs(p, |before|);
    ParentOfBare(before);
    RootOfBare();
    NamelessIsSeparators("//");
    assert p != "//" by {
      assert HasName(p);
    }
  }

  /** What stands before a name, less its last separator, has a name unless it is all separators. */
  lemma ParentOfNamed(before: string)
    requires !AllSeparators(before) && before[|before| - 1] == SEPARATOR
    ensures HasName(before[..|before| - 1]) && Parent(before) == TrimEnd(before[..|before| - 1])
  {
    hide TrimEnd, Stripped;
    var q := before[..|before| - 1];
    var m :| 0 <= m < |before| && before[m] != SEPARATOR;
    assert q[m] != SEPARATOR;
    NamelessIsSeparators(q);
    NamedNotBare(q);
  }

  lemma RootOfPrefix(d: string, p: string)
    requires d <= p && Lead(d) < |d| && HasName(d) && HasName(p)
    ensures Root(d) == Root(p)
  {
    hide TrimEnd, Lead;
    LeadOfPrefix(d, p);
    NamelessIsSeparators("//");
  }

  /** A name behind other names. */
  lemma RootOfLaterName(p: string)
    requires HasName(p) && !AllSeparators(Before(TrimEnd(p)))
    ensures Root(p) == Root(DirName(p))
  {
    hide LastName, DirName, TrimEnd, Stripped, Lead, Parent, Root, HasName, Before, AllSeparators;
    NamedDir(p);
    var before := Before(TrimEnd(p));
    BeforeEnds(p);
    ParentOfNamed(before);
    var q := before[..|before| - 1];
    TrimmedHasName(q);
    RootOfPrefix(TrimEnd(q), p);
  }

  lemma BeforeEnds(p: string)
    requires !AllSeparators(Before(TrimEnd(p)))
    ensures var before := Before(TrimEnd(p));
      before != "" && before <= p && before[|before| - 1] == SEPARATOR
  {
    hide LastName, TrimEnd;
  }

  lemma {:induction false} NoSegments(p: string)
    requires Segments(p) == []
    ensures AllSeparators(p)
    decreases |p|
  {
    if p != "" {
      assert p[0] == SEPARATOR;
      NoSegments(p[1..]);
      assert forall i :: 0 < i < |p| ==> p[i] == p[1..][i - 1];
    }
  }

  lemma EndsInName(d: string, k: nat)
    requires k < |d| && d[|d| - 1] != SEPARATOR
    ensures !AllSeparators(d[k..])
  {
    assert d[k..][|d| - k - 1] == d[|d| - 1];
  }

  /** A relative path that ends in a name and whose only segment is "." is ".". */
  lemma OnlyDot(d: string)
    requires d != "" && d[0] != SEPARATOR && d[|d| - 1] != SEPARATOR
    ensures Segments(d) != [] && (Segments(d) == ["."] ==> d == ".")
  {
    var k := FirstSeparator(d);
    if Segments(d) == ["."] {
      assert d[..k] == ".";
      assert d == d[..k] + d[k..];
      if k < |d| {
        EndsInName(d, k);
      }
      NoSegments(d[k..]);
    }
  }

  lemma DirEndsInName(p: string)
    requires HasName(p) && Before(TrimEnd(p)) != "" && p[0] != SEPARATOR
    ensures DirName(p) != "" && DirName(p)[0] != SEPARATOR && DirName(p)[|DirName(p)| - 1] != SEPARATOR
  {
    hide LastName, DirName, TrimEnd, Stripped, Parent;
    FirstOfNamed(p);
    NamedDir(p);
    var before := Before(TrimEnd(p));
    assert before[0] == p[0];
    ParentOfNamed(before);
  }

  lemma DropDotFirst(s: seq<string>, name: string)
    requires s != []
    ensures DropDot(s + [name]) == DropDot(s) + [name]
  {
    assert s[0] == "." ==> (s + [name])[1..] == s[1..] + [name];
  }

  lemma ComponentsAdd(d: string, p: string, name: string)
    requires d != "" && d[0] != SEPARATOR && d[|d| - 1] != SEPARATOR && p != "" && p[0] != SEPARATOR
    requires Segments(p) == Segments(d) + [name]
    ensures Components(p) == Components(d) + [name]
  {
    hide Segments, Root, DropDot;
    OnlyDot(d);
    DropDotFirst(Segments(d), name);
    LoneDot();
    assert |Segments(p)| >= 2;
  }

  lemma LoneDot()
    ensures DropDot(["."]) == []
  {
  }

  /** Adding a name to a directory adds it to the components. */
  lemma ComponentsOfNamed(p: string)
    requires HasName(p) && DirName(p) != p
    ensures DirName(p) != "" && Components(p) == Components(DirName(p)) + [LastName(TrimEnd(p))]
  {
    hide TrimEnd, LastName, Segments, Stripped, Lead, DirName, Root, DropDot;
    NamedDir(p);
    var name, before := LastName(TrimEnd(p)), Before(TrimEnd(p));
    if before == "" {
      SegmentsOfName(".");
      SoleName(p);
    } else {
      FirstOfNamed(p);
      SegmentsOfDir(p);
      if p[0] == SEPARATOR {
        if AllSeparators(before) {
          RootOfFirstName(p);
        } else {
          RootOfLaterName(p);
        }
        assert [Root(p)] + (Segments(DirName(p)) + [name]) == [Root(p)] + Segments(DirName(p)) + [name];
      } else {
        DirEndsInName(p);
        ComponentsAdd(DirName(p), p, name);
      }
    }
  }

  // ----- ReferencesParent ---------------------------------------------------------------------------

  lemma ParentIsASegment(p: string)
    ensures ".." in Components(p) <==> ".." in Segments(p)
  {
    hide Segments, TrimEnd, Lead;
    NoneInEmpty();
    var s := Segments(p);
    if s != [] {
      assert s == [s[0]] + s[1..];
    }
  }

  /** For every path: true exactly when some segment is "..". */
  method ReferencesParent(p: string) returns (found: bool)
    ensures found <==> ".." in Segments(p)
  {
    var components := GetComponents(p);
    ParentIsASegment(p);
    for i := 0 to |components|
      invariant ".." !in components[..i]
    {
      if components[i] == ".." {
        return true;
      }
    }
    return false;
  }
}
