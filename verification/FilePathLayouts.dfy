/** Paths put together from names and runs of separators, and what each operation makes of them. */
module FilePathLayouts {

  import opened FilePath

  // ----- Layouts ------------------------------------------------------------------------------------

  function Slashes(n: nat): (s: string)
    ensures |s| == n && AllSeparators(s)
  {
    if n == 0 then "" else "/" + Slashes(n - 1)
  }

  /** Each name with a run of separators behind it. */
  function Laid(names: seq<string>, gaps: seq<nat>): string
    requires |gaps| == |names|
  {
    if names == [] then "" else names[0] + Slashes(gaps[0]) + Laid(names[1..], gaps[1..])
  }

  predicate IsName(name: string) {
    name != "" && forall i :: 0 <= i < |name| ==> name[i] != '/'
  }

  /** Names with at least one separator between them; behind the last there may be none. */
  predicate IsLayout(names: seq<string>, gaps: seq<nat>) {
    && |gaps| == |names|
    && (forall i :: 0 <= i < |names| ==> IsName(names[i]))
    && forall i :: 0 <= i < |names| - 1 ==> gaps[i] > 0
  }

  function PathOf(lead: nat, names: seq<string>, gaps: seq<nat>): string
    requires |gaps| == |names|
  {
    Slashes(lead) + Laid(names, gaps)
  }

  lemma TailIsLayout(names: seq<string>, gaps: seq<nat>)
    requires IsLayout(names, gaps) && names != []
    ensures IsLayout(names[1..], gaps[1..])
  {
  }

  // ----- Segments -----------------------------------------------------------------------------------

  lemma {:induction false} SegmentsOfLaid(names: seq<string>, gaps: seq<nat>)
    requires IsLayout(names, gaps)
    ensures Segments(Laid(names, gaps)) == names
    decreases |names|
  {
    hide Segments, IsName, Slashes;
    if names == [] {
      NoneInEmpty();
    } else {
      var name, gap, rest := names[0], Slashes(gaps[0]), Laid(names[1..], gaps[1..]);
      TailIsLayout(names, gaps);
      SegmentsOfLaid(names[1..], gaps[1..]);
      OneName(name);
      SegmentsTrail(name, gap);
      if |names| == 1 {
        assert Laid(names, gaps) == name + gap;
      } else {
        assert (name + gap)[|name + gap| - 1] == gap[|gap| - 1];
        SegmentsJoin(name + gap, rest);
      }
      assert names == [name] + names[1..];
    }
  }

  lemma OneName(name: string)
    requires IsName(name)
    ensures Segments(name) == [name] && !AllSeparators(name)
  {
    SegmentsOfName(name);
    NameIsNotSeparators(name);
  }

  lemma SegmentsOfPath(lead: nat, names: seq<string>, gaps: seq<nat>)
    requires IsLayout(names, gaps)
    ensures Segments(PathOf(lead, names, gaps)) == names
  {
    hide Segments, IsName;
    SegmentsOfLaid(names, gaps);
    SegmentsOfSeparators(Slashes(lead));
    SegmentsJoin(Slashes(lead), Laid(names, gaps));
  }

  // ----- Components ---------------------------------------------------------------------------------

  lemma LaidStarts(names: seq<string>, gaps: seq<nat>)
    requires IsLayout(names, gaps) && names != []
    ensures Laid(names, gaps) != "" && Laid(names, gaps)[0] != '/'
  {
    assert Laid(names, gaps)[0] == names[0][0];
  }

  lemma LeadOfPath(lead: nat, names: seq<string>, gaps: seq<nat>)
    requires IsLayout(names, gaps)
    ensures HasName(PathOf(lead, names, gaps)) <==> names != []
    ensures Lead(PathOf(lead, names, gaps)) == lead
  {
    hide Lead, TrimEnd, Slashes, Laid, IsName, HasName;
    var p, a, b := PathOf(lead, names, gaps), Slashes(lead), Laid(names, gaps);
    NamelessIsSeparators(p);
    assert forall i :: 0 <= i < lead ==> p[i] == a[i];
    if names != [] {
      LaidStarts(names, gaps);
      assert p[lead] == b[0];
    } else {
      NothingLaid(gaps);
    }
    LeadIs(p, lead);
  }

  lemma NothingLaid(gaps: seq<nat>)
    requires gaps == []
    ensures Laid([], gaps) == ""
  {
  }

  /** GetComponents of an absolute path: the root, which is "//" for two or three separators before a name and for a
      bare "//", and then the names. */
  lemma AbsoluteComponents(lead: nat, names: seq<string>, gaps: seq<nat>)
    requires IsLayout(names, gaps) && lead > 0
    ensures Components(PathOf(lead, names, gaps)) ==
            [if lead == 2 || (lead == 3 && names != []) then "//" else "/"] + names
  {
    hide Segments, Lead, TrimEnd, IsName, HasName, Laid;
    var p := PathOf(lead, names, gaps);
    SegmentsOfPath(lead, names, gaps);
    LeadOfPath(lead, names, gaps);
    assert p[0] == Slashes(lead)[0];
    if names == [] {
      NothingLaid(gaps);
      BareRoot(lead);
      assert p == Slashes(lead);
    } else {
      assert p != "//" by {
        NamelessIsSeparators("//");
      }
    }
  }

  lemma BareRoot(lead: nat)
    ensures Slashes(lead) == "//" <==> lead == 2
  {
    assert Slashes(2) == "/" + Slashes(1) && Slashes(1) == "/" + Slashes(0);
  }

  /** GetComponents of a relative path: the names, without a first "."; but "." with separators behind it keeps its
      dot, and the empty path has none. */
  lemma RelativeComponents(names: seq<string>, gaps: seq<nat>)
    requires IsLayout(names, gaps)
    ensures Components(PathOf(0, names, gaps)) ==
            if names == [] then []
            else if names == ["."] then (if gaps[0] == 0 then [] else ["."])
            else if names[0] == "." then names[1..]
            else names
  {
    hide Segments, IsName;
    var p := PathOf(0, names, gaps);
    SegmentsOfPath(0, names, gaps);
    assert p == Laid(names, gaps);
    if names != [] {
      LaidStarts(names, gaps);
    }
    if names == ["."] {
      assert p == "." + Slashes(gaps[0]) + Laid([], []);
    }
  }

  // ----- Every path has a layout --------------------------------------------------------------------

  lemma LeadIsSlashes(p: string)
    ensures p[..Lead(p)] == Slashes(Lead(p))
  {
    hide Lead;
    assert forall i :: 0 <= i < Lead(p) ==> Slashes(Lead(p))[i] == '/';
  }

  /** Every path is some names and runs of separators, so the lemmas above and below speak of all paths. */
  lemma {:induction false} LayoutOf(p: string) returns (lead: nat, names: seq<string>, gaps: seq<nat>)
    ensures IsLayout(names, gaps) && p == PathOf(lead, names, gaps)
    ensures p != "" && p[0] != '/' ==> lead == 0 && names != []
    ensures p != "" && p[0] == '/' ==> lead > 0
    decreases |p|
  {
    hide Lead, FirstSeparator, Slashes;
    lead := Lead(p);
    LeadIsSlashes(p);
    var rest := p[lead..];
    assert p == p[..lead] + rest;
    if rest == "" {
      names, gaps := [], [];
    } else {
      assert rest[0] == p[lead];
      var k := FirstSeparator(rest);
      var gap, more, moreGaps := LayoutOf(rest[k..]);
      names, gaps := [rest[..k]] + more, [gap] + moreGaps;
      assert rest == rest[..k] + rest[k..];
      assert names[1..] == more && gaps[1..] == moreGaps;
      assert k < |rest| ==> rest[k..][0] == '/';
      assert k == |rest| ==> rest[k..] == "";
      LaidCons(rest[..k], gap, more, moreGaps);
      NothingInEmpty(rest[k..], gap, more, moreGaps);
    }
  }

  lemma LaidCons(name: string, gap: nat, names: seq<string>, gaps: seq<nat>)
    requires |gaps| == |names|
    ensures Laid([name] + names, [gap] + gaps) == name + (Slashes(gap) + Laid(names, gaps))
  {
    assert ([name] + names)[1..] == names && ([gap] + gaps)[1..] == gaps;
  }

  lemma NothingInEmpty(p: string, lead: nat, names: seq<string>, gaps: seq<nat>)
    requires IsLayout(names, gaps) && p == PathOf(lead, names, gaps)
    ensures p == "" ==> names == [] && lead == 0
  {
    if names != [] {
      LaidStarts(names, gaps);
    }
  }

  // ----- DirName and BaseName -----------------------------------------------------------------------

  lemma LastNameStep(p: string, c: char)
    requires c != '/'
    ensures LastName(p + [c]) == LastName(p) + [c]
  {
    assert (p + [c])[..|p|] == p;
  }

  lemma NoLastName(a: string)
    requires a != "" ==> a[|a| - 1] == '/'
    ensures LastName(a) == ""
  {
  }

  lemma {:induction false} LastNameOf(a: string, name: string)
    requires (forall i :: 0 <= i < |name| ==> name[i] != '/') && (a != "" ==> a[|a| - 1] == '/')
    ensures LastName(a + name) == name
    decreases |name|
  {
    hide LastName;
    if name == "" {
      assert a + name == a;
      NoLastName(a);
    } else {
      var n := |name| - 1;
      var init := name[..n];
      assert name == init + [name[n]];
      LastNameOf(a, init);
      LastNameStep(a + init, name[n]);
      assert a + init + [name[n]] == a + name;
    }
  }

  lemma LastNameIs(a: string, name: string)
    requires IsName(name) && (a != "" ==> a[|a| - 1] == '/')
    ensures LastName(a + name) == name && Before(a + name) == a
  {
    hide LastName;
    LastNameOf(a, name);
    assert (a + name)[..|a|] == a;
  }

  /** All but the last name, with the runs behind them. */
  lemma {:induction false} LaidLast(names: seq<string>, gaps: seq<nat>)
    requires IsLayout(names, gaps) && names != []
    ensures var n := |names| - 1;
      && Laid(names, gaps) == Laid(names[..n], gaps[..n]) + names[n] + Slashes(gaps[n])
      && (n > 0 ==> Laid(names[..n], gaps[..n]) != "" && Laid(names[..n], gaps[..n])[|Laid(names[..n], gaps[..n])| - 1] == '/')
    decreases |names|
  {
    hide Slashes, IsName, Laid;
    var n := |names| - 1;
    LaidStep(names, gaps);
    if n == 0 {
      NothingLaid(gaps[1..]);
      NothingLaid(gaps[..0]);
      assert names[1..] == [] && names[..0] == [];
    } else {
      TailIsLayout(names, gaps);
      LaidLast(names[1..], gaps[1..]);
      LaidStep(names[..n], gaps[..n]);
      var init, more := Laid(names[..n], gaps[..n]), Laid(names[1..][..n - 1], gaps[1..][..n - 1]);
      assert names[..n][1..] == names[1..][..n - 1] && gaps[..n][1..] == gaps[1..][..n - 1];
      assert init == names[0] + Slashes(gaps[0]) + more;
      if n == 1 {
        NothingLaid(gaps[1..][..0]);
        assert names[1..][..0] == [];
      }
      assert init[|init| - 1] == '/';
    }
  }

  lemma LaidStep(names: seq<string>, gaps: seq<nat>)
    requires |gaps| == |names| && names != []
    ensures Laid(names, gaps) == names[0] + Slashes(gaps[0]) + Laid(names[1..], gaps[1..])
  {
  }

  lemma TrimsSlashes(t: string, k: nat)
    requires t != "" && t[|t| - 1] != '/'
    ensures TrimEnd(t + Slashes(k)) == t
  {
    hide TrimEnd, Slashes;
    var p, tail := t + Slashes(k), Slashes(k);
    assert forall i :: |t| <= i < |p| ==> p[i] == tail[i - |t|];
    TrimEndUnique(p, t);
  }

  /** The path up to and with its last name, and up to that name. */
  function UpTo(lead: nat, names: seq<string>, gaps: seq<nat>): string
    requires |gaps| == |names| && names != []
  {
    PathOf(lead, names[..|names| - 1], gaps[..|names| - 1])
  }

  lemma Trimmed(lead: nat, names: seq<string>, gaps: seq<nat>)
    requires IsLayout(names, gaps) && names != []
    ensures var n := |names| - 1; var t := UpTo(lead, names, gaps) + names[n];
      && PathOf(lead, names, gaps) == t + Slashes(gaps[n]) && t[|t| - 1] != '/'
      && PathOf(lead, names, gaps[n := 0]) == t
      && (n > 0 || lead > 0 ==> UpTo(lead, names, gaps) != "" && UpTo(lead, names, gaps)[|UpTo(lead, names, gaps)| - 1] == '/')
  {
    hide Slashes, Laid;
    var n := |names| - 1;
    var bare := gaps[n := 0];
    LaidLast(names, gaps);
    assert IsLayout(names, bare);
    LaidLast(names, bare);
    assert bare[..n] == gaps[..n];
    assert Slashes(0) == "";
    var t, l := UpTo(lead, names, gaps) + names[n], Laid(names[..n], gaps[..n]);
    assert t[|t| - 1] == names[n][|names[n]| - 1];
    if n == 0 {
      NothingLaid(gaps[..0]);
      assert names[..0] == [] && Slashes(lead) + "" == Slashes(lead);
    } else {
      assert (Slashes(lead) + l)[lead + |l| - 1] == l[|l| - 1];
    }
  }

  /** BaseName is the last name; DirName is the path up to the name before it, without separators behind it, or the
      root, or "."; stripping takes exactly the last run. */
  lemma DirAndBase(lead: nat, names: seq<string>, gaps: seq<nat>)
    requires IsLayout(names, gaps) && names != []
    ensures var p, n := PathOf(lead, names, gaps), |names| - 1;
      && Stripped(p) == PathOf(lead, names, gaps[n := 0])
      && BaseName(p) == names[n]
      && DirName(p) == if n > 0 then PathOf(lead, names[..n], gaps[..n][n - 1 := 0])
                       else if lead == 0 then "."
                       else if lead == 2 || lead == 3 then "//" else "/"
  {
    hide Slashes, Laid, TrimEnd, LastName, Stripped, DirName, BaseName, Parent, Before, HasName, PathOf;
    var p, n, a := PathOf(lead, names, gaps), |names| - 1, UpTo(lead, names, gaps);
    Trimmed(lead, names, gaps);
    TrimsSlashes(a + names[n], gaps[n]);
    NamedIfTrimmed(p);
    NamedNotBare(p);
    NothingBefore(lead, names, gaps);
    LastNameIs(a, names[n]);
    NamedPath(p);
    if n > 0 {
      ParentOfLaid(lead, names[..n], gaps[..n]);
    } else {
      RootParent(lead);
    }
  }

  lemma NamedIfTrimmed(p: string)
    requires TrimEnd(p) != ""
    ensures HasName(p)
  {
  }

  lemma NothingBefore(lead: nat, names: seq<string>, gaps: seq<nat>)
    requires IsLayout(names, gaps) && names != []
    ensures |names| == 1 ==> UpTo(lead, names, gaps) == Slashes(lead)
  {
    if |names| == 1 {
      assert names[..0] == [] && gaps[..0] == [];
    }
  }

  lemma RootParent(lead: nat)
    ensures Parent(Slashes(lead)) == if lead == 0 then "." else if lead == 2 || lead == 3 then "//" else "/"
  {
    hide Slashes;
    if lead > 0 {
      ParentOfBare(Slashes(lead));
    }
  }

  lemma ParentOfLaid(lead: nat, names: seq<string>, gaps: seq<nat>)
    requires IsLayout(names, gaps) && names != [] && gaps[|names| - 1] > 0
    ensures Parent(PathOf(lead, names, gaps)) == PathOf(lead, names, gaps[|names| - 1 := 0])
  {
    hide Slashes, Laid, TrimEnd, Stripped, Parent, HasName, AllSeparators, PathOf;
    var n, before := |names| - 1, PathOf(lead, names, gaps);
    var t := UpTo(lead, names, gaps) + names[n];
    Trimmed(lead, names, gaps);
    OneLess(t, gaps[n]);
    TrimsSlashes(t, gaps[n] - 1);
    NotBare(t, before);
    ParentOfNamed(before);
  }

  lemma OneLess(t: string, k: nat)
    requires k > 0
    ensures var s := t + Slashes(k); s[|s| - 1] == '/' && s[..|s| - 1] == t + Slashes(k - 1)
  {
    hide Slashes;
    var s, x, y := t + Slashes(k), Slashes(k), Slashes(k - 1);
    assert s[|s| - 1] == x[k - 1];
    assert forall i :: 0 <= i < k - 1 ==> x[i] == y[i];
    assert s[..|s| - 1] == t + x[..k - 1] && x[..k - 1] == y;
  }

  lemma NotBare(t: string, p: string)
    requires t != "" && t[|t| - 1] != '/' && t <= p
    ensures !AllSeparators(p)
  {
    assert p[|t| - 1] == t[|t| - 1];
  }
}
