/** TrimString of base/string_util.cc, for any set of characters to trim. */
module StringTrimming {

  predicate AllWhite(white: set<char>, s: string) {
    forall i :: 0 <= i < |s| ==> s[i] in white
  }

  predicate Trimmed(white: set<char>, s: string) {
    s != "" ==> s[0] !in white && s[|s| - 1] !in white
  }

  /** find_first_not_of; the length stands for npos. */
  function FirstGood(white: set<char>, s: string): (k: nat)
    ensures k <= |s| && (forall i :: 0 <= i < k ==> s[i] in white) && (k < |s| ==> s[k] !in white)
  {
    if s == "" || s[0] !in white then 0 else 1 + FirstGood(white, s[1..])
  }

  /** find_last_not_of; -1 stands for npos. */
  function LastGood(white: set<char>, s: string): (k: int)
    ensures -1 <= k < |s| && (forall i :: k < i < |s| ==> s[i] in white) && (k >= 0 ==> s[k] !in white)
  {
    if s == "" || s[|s| - 1] !in white then |s| - 1 else LastGood(white, s[..|s| - 1])
  }

  lemma GoodEnds(white: set<char>, s: string)
    ensures FirstGood(white, s) < |s| ==> FirstGood(white, s) <= LastGood(white, s)
  {
    hide FirstGood, LastGood;
    if FirstGood(white, s) < |s| {
      assert s[FirstGood(white, s)] !in white;
    }
  }

  function Trim(white: set<char>, s: string): string {
    if FirstGood(white, s) == |s| then "" else
      GoodEnds(white, s);
      s[FirstGood(white, s)..LastGood(white, s) + 1]
  }

  /** Trimming undoes padding, and nothing else is trimmed: text is one padded trimmed text. */
  lemma TrimUndoesPadding(white: set<char>, a: string, s: string, b: string)
    requires AllWhite(white, a) && AllWhite(white, b) && Trimmed(white, s)
    ensures Trim(white, a + s + b) == s
  {
    hide FirstGood, LastGood;
    var p := a + s + b;
    assert forall i :: 0 <= i < |a| ==> p[i] == a[i];
    assert forall i :: 0 <= i < |s| ==> p[|a| + i] == s[i];
    assert forall i :: 0 <= i < |b| ==> p[|a| + |s| + i] == b[i];
    if s == "" {
      assert p == a + b;
      assert AllWhite(white, p);
    } else {
      assert p[|a|] == s[0] && p[|a| + |s| - 1] == s[|s| - 1];
      assert FirstGood(white, p) == |a| && LastGood(white, p) == |a| + |s| - 1;
      assert p[|a|..|a| + |s|] == s;
    }
  }

  lemma TrimIsPadded(white: set<char>, s: string)
    ensures Trimmed(white, Trim(white, s))
    ensures exists a, b :: AllWhite(white, a) && AllWhite(white, b) && s == a + Trim(white, s) + b
  {
    hide FirstGood, LastGood;
    var f, l := FirstGood(white, s), LastGood(white, s);
    if f == |s| {
      assert AllWhite(white, s) && AllWhite(white, "") && s == s + Trim(white, s) + "";
    } else {
      assert s[f..l + 1][0] == s[f] && s[f..l + 1][l - f] == s[l];
      assert AllWhite(white, s[..f]) && AllWhite(white, s[l + 1..]);
      assert s == s[..f] + Trim(white, s) + s[l + 1..];
    }
  }

  /** TrimString reports whether it changed anything. */
  method TrimString(white: set<char>, input: string) returns (changed: bool, output: string)
    ensures output == Trim(white, input)
    ensures changed <==> output != input
  {
    hide FirstGood, LastGood;
    var last := |input| - 1;
    var first, end := FirstGood(white, input), LastGood(white, input);
    GoodEnds(white, input);
    if input == "" || first == |input| || end == -1 {
      return input != "", "";
    }
    output := input[first..end + 1];
    changed := first != 0 || end != last;
  }

  lemma {:induction false} FirstGoodIs(white: set<char>, s: string, k: nat)
    requires k <= |s| && (forall i :: 0 <= i < k ==> s[i] in white) && (k < |s| ==> s[k] !in white)
    ensures FirstGood(white, s) == k
    decreases |s|
  {
    if k > 0 {
      FirstGoodIs(white, s[1..], k - 1);
    }
  }

  /** White space in front is skipped. */
  lemma SkipsWhite(white: set<char>, a: string, s: string)
    requires AllWhite(white, a) && s != "" && s[0] !in white
    ensures (a + s)[FirstGood(white, a + s)..] == s
  {
    hide FirstGood;
    assert (a + s)[|a|] == s[0];
    FirstGoodIs(white, a + s, |a|);
  }

  /** The loop that passes over white space. */
  method SkipWhite(white: set<char>, s: string, start: nat) returns (pos: nat)
    requires start <= |s|
    ensures pos == start + FirstGood(white, s[start..])
    ensures pos <= |s|
  {
    pos := start;
    while pos < |s| && s[pos] in white
      invariant start <= pos <= |s| && forall i :: start <= i < pos ==> s[i] in white
    {
      pos := pos + 1;
    }
    FirstGoodIs(white, s[start..], pos - start);
  }
}
