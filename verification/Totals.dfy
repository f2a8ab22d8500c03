/** Sums over a sequence of thread phases, and how they move when phases change. */
module Totals {

  function Total<T>(s: seq<T>, weight: T -> nat): (n: nat)
  {
    if s == [] then 0 else weight(s[0]) + Total(s[1..], weight)
  }

  /** Changing one element changes the total by the difference of the two weights. */
  lemma {:induction false} TotalUpdate<T>(s: seq<T>, i: nat, x: T, weight: T -> nat)
    requires i < |s|
    ensures Total(s[i := x], weight) == Total(s, weight) - weight(s[i]) + weight(x)
    decreases |s|
  {
    if i == 0 {
      assert s[0 := x][1..] == s[1..];
    } else {
      TotalUpdate(s[1..], i - 1, x, weight);
      assert s[i := x][1..] == s[1..][i - 1 := x];
    }
  }

  /** A pointwise bound on the weights bounds the totals; one strict index makes it strict. */
  lemma {:induction false} TotalMonotone<T>(s: seq<T>, t: seq<T>, v: T -> nat, weight: T -> nat)
    requires |s| == |t|
    requires forall i :: 0 <= i < |s| ==> v(s[i]) <= weight(t[i])
    ensures Total(s, v) <= Total(t, weight)
    ensures (exists i :: 0 <= i < |s| && v(s[i]) < weight(t[i])) ==> Total(s, v) < Total(t, weight)
    decreases |s|
  {
    if s != [] {
      TotalMonotone(s[1..], t[1..], v, weight);
      if i :| 0 <= i < |s| && v(s[i]) < weight(t[i]) {
        assert i > 0 ==> s[1..][i - 1] == s[i] && t[1..][i - 1] == t[i];
      }
    }
  }

  /** The total is positive exactly when some element has positive weight. */
  lemma {:induction false} TotalPositive<T>(s: seq<T>, weight: T -> nat)
    ensures Total(s, weight) > 0 <==> exists i :: 0 <= i < |s| && weight(s[i]) > 0
    decreases |s|
  {
    if s != [] {
      TotalPositive(s[1..], weight);
      if weight(s[0]) == 0 {
        if i :| 0 <= i < |s| && weight(s[i]) > 0 {
          assert s[1..][i - 1] == s[i];
        }
        if j :| 0 <= j < |s[1..]| && weight(s[1..][j]) > 0 {
          assert s[j + 1] == s[1..][j];
        }
      }
    }
  }

  /** Weights bounded by k give a total of at most k per element. */
  lemma {:induction false} TotalBound<T>(s: seq<T>, weight: T -> nat)
    requires forall i :: 0 <= i < |s| ==> weight(s[i]) <= 1
    ensures Total(s, weight) <= |s|
    ensures Total(s, weight) == |s| <==> forall i :: 0 <= i < |s| ==> weight(s[i]) == 1
    decreases |s|
  {
    if s != [] {
      TotalBound(s[1..], weight);
      assert forall i :: 0 < i < |s| ==> s[1..][i - 1] == s[i];
    }
  }

  /** Totals add up pointwise. */
  lemma {:induction false} TotalSum<T>(s: seq<T>, v: T -> nat, w: T -> nat, weight: T -> nat)
    requires forall i :: 0 <= i < |s| ==> weight(s[i]) == v(s[i]) + w(s[i])
    ensures Total(s, weight) == Total(s, v) + Total(s, w)
    decreases |s|
  {
    if s != [] {
      TotalSum(s[1..], v, w, weight);
    }
  }

  lemma {:induction false} TotalAppend<T>(s: seq<T>, x: T, weight: T -> nat)
    ensures Total(s + [x], weight) == Total(s, weight) + weight(x)
    decreases |s|
  {
    if s == [] {
      assert [x][1..] == [];
    } else {
      TotalAppend(s[1..], x, weight);
      assert (s + [x])[1..] == s[1..] + [x];
    }
  }
}
