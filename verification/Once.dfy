/** The once-protocol of base/once.cc and base/once.h: any number of threads, one flag, one closure. */
module Once {

  /** Where a thread stands in a call: before the load of OnceInit, before that of OnceInitImpl, before the
      compare-and-swap, in the closure, before the store of DONE, or in the spin loop. */
  datatype Phase = Outside | Checking | Loading | Swapping | Running | Storing | Spinning

  datatype Flag = Uninitialized | Executing | Done

  datatype Event = Started(thread: nat) | Completed(thread: nat) | Returned(thread: nat)

  datatype State = State(flag: Flag, threads: seq<Phase>, log: seq<Event>)

  ghost predicate Init(s: State) {
    s.flag == Uninitialized && s.log == [] && forall t :: 0 <= t < |s.threads| ==> s.threads[t] == Outside
  }

  function Moved(s: State, t: nat, p: Phase): State
    requires t < |s.threads|
  {
    s.(threads := s.threads[t := p])
  }

  function Leave(s: State, t: nat): State
    requires t < |s.threads|
  {
    Moved(s, t, Outside).(log := s.log + [Returned(t)])
  }

  /** One atomic access, or the end of the closure. */
  function Step(s: State, t: nat): State
    requires t < |s.threads|
  {
    match s.threads[t]
    case Outside => Moved(s, t, Checking)
    case Checking => if s.flag == Done then Leave(s, t) else Moved(s, t, Loading)
    case Loading => if s.flag == Done then Leave(s, t) else Moved(s, t, Swapping)
    case Swapping =>
      if s.flag == Uninitialized then Moved(s, t, Running).(flag := Executing, log := s.log + [Started(t)])
      else if s.flag == Executing then Moved(s, t, Spinning)
      else Leave(s, t)
    case Running => Moved(s, t, Storing).(log := s.log + [Completed(t)])
    case Storing => Leave(s, t).(flag := Done)
    case Spinning => if s.flag == Executing then s else Leave(s, t)
  }

  /** The states of a run in which the threads move in the given order. */
  ghost predicate IsRun(states: seq<State>, order: seq<nat>) {
    && |states| == |order| + 1 && Init(states[0])
    && forall i :: 0 <= i < |order| ==> order[i] < |states[i].threads| && states[i + 1] == Step(states[i], order[i])
  }

  // ----- What every step keeps ----------------------------------------------------------------------

  predicate Busy(p: Phase) {
    p == Running || p == Storing
  }

  ghost predicate IsCompletion(log: seq<Event>, j: int) {
    0 <= j < |log| && log[j].Completed?
  }

  /** Every return comes after a completion. */
  ghost predicate ReturnsAfter(log: seq<Event>) {
    forall i :: 0 <= i < |log| && log[i].Returned? ==> exists j :: j < i && IsCompletion(log, j)
  }

  ghost predicate OneStart(log: seq<Event>) {
    forall i, j :: 0 <= i < |log| && 0 <= j < |log| && log[i].Started? && log[j].Started? ==> i == j
  }

  ghost predicate BusyAt(threads: seq<Phase>, t: int) {
    0 <= t < |threads| && Busy(threads[t])
  }

  ghost predicate HasCompletion(log: seq<Event>) {
    exists j :: IsCompletion(log, j)
  }

  ghost predicate NoReturn(log: seq<Event>) {
    forall i :: 0 <= i < |log| ==> !log[i].Returned?
  }

  ghost predicate LogInv(s: State) {
    && ReturnsAfter(s.log) && OneStart(s.log)
    && (s.flag == Uninitialized ==> s.log == [])
    && (s.flag == Executing ==> NoReturn(s.log))
    && (s.flag == Done ==> HasCompletion(s.log))
  }

  ghost predicate ThreadInv(s: State) {
    && (forall t, u :: BusyAt(s.threads, t) && BusyAt(s.threads, u) ==> t == u)
    && (s.flag == Executing <==> exists t :: BusyAt(s.threads, t))
    && (forall t :: 0 <= t < |s.threads| && s.threads[t] == Storing ==> HasCompletion(s.log))
    && (forall t :: 0 <= t < |s.threads| && s.threads[t] == Spinning ==> s.flag != Uninitialized)
  }

  ghost predicate Inv(s: State) {
    LogInv(s) && ThreadInv(s)
  }

  lemma ReturnsKept(log: seq<Event>, e: Event)
    requires ReturnsAfter(log) && (e.Returned? ==> HasCompletion(log))
    ensures ReturnsAfter(log + [e])
    ensures HasCompletion(log) || e.Completed? ==> HasCompletion(log + [e])
  {
    var more := log + [e];
    assert forall j :: IsCompletion(log, j) ==> IsCompletion(more, j);
    assert e.Completed? ==> IsCompletion(more, |log|);
    forall i | 0 <= i < |more| && more[i].Returned?
      ensures exists j :: j < i && IsCompletion(more, j)
    {
      if i < |log| {
        assert log[i].Returned?;
        var j :| j < i && IsCompletion(log, j);
        assert IsCompletion(more, j);
      } else {
        var j :| IsCompletion(log, j);
        assert IsCompletion(more, j);
      }
    }
  }

  lemma StepKeepsLog(s: State, t: nat)
    requires Inv(s) && t < |s.threads|
    ensures LogInv(Step(s, t))
    ensures HasCompletion(s.log) || s.threads[t] == Running ==> HasCompletion(Step(s, t).log)
  {
    hide ReturnsAfter, HasCompletion;
    var n := Step(s, t);
    assert Busy(s.threads[t]) ==> BusyAt(s.threads, t);
    if n.log != s.log {
      ReturnsKept(s.log, n.log[|s.log|]);
    }
  }

  lemma StepKeepsThreads(s: State, t: nat)
    requires Inv(s) && t < |s.threads|
    ensures ThreadInv(Step(s, t))
  {
    hide LogInv, HasCompletion;
    StepKeepsLog(s, t);
    var n := Step(s, t);
    assert forall u :: u != t ==> (BusyAt(n.threads, u) <==> BusyAt(s.threads, u));
    assert BusyAt(s.threads, t) <==> Busy(s.threads[t]);
    assert BusyAt(n.threads, t) <==> Busy(n.threads[t]);
    if s.flag == Executing && !Busy(s.threads[t]) {
      var u :| BusyAt(s.threads, u);
      assert BusyAt(n.threads, u);
    }
  }

  lemma StepKeepsInv(s: State, t: nat)
    requires Inv(s) && t < |s.threads|
    ensures Inv(Step(s, t))
  {
    hide LogInv, ThreadInv, Step;
    StepKeepsLog(s, t);
    StepKeepsThreads(s, t);
  }

  lemma InitKeepsInv(s: State)
    requires Init(s)
    ensures Inv(s)
  {
  }

  lemma {:induction false} RunKeepsInv(states: seq<State>, order: seq<nat>, i: nat)
    requires IsRun(states, order) && i < |states|
    ensures Inv(states[i])
    decreases i
  {
    hide Inv, Step, Init;
    if i == 0 {
      InitKeepsInv(states[0]);
    } else {
      RunKeepsInv(states, order, i - 1);
      StepKeepsInv(states[i - 1], order[i - 1]);
    }
  }

  // ----- The protocol -------------------------------------------------------------------------------

  /** In every run: the closure starts at most once, at most one thread is in it at any time, and every call
      returns after a completion. */
  lemma OnceOnly(states: seq<State>, order: seq<nat>, i: nat)
    requires IsRun(states, order) && i < |states|
    ensures OneStart(states[i].log) && ReturnsAfter(states[i].log)
    ensures forall t, u :: BusyAt(states[i].threads, t) && BusyAt(states[i].threads, u) ==> t == u
  {
    hide IsRun;
    RunKeepsInv(states, order, i);
  }

  /** The log tells all: a thread leaves its call exactly when it logs a return, and then the closure has completed;
      it enters the closure exactly when it logs a start, and leaves it exactly when it logs a completion. */
  lemma LogTells(states: seq<State>, order: seq<nat>, i: nat, t: nat)
    requires IsRun(states, order) && i < |order| && t < |states[i].threads|
    ensures var s, s' := states[i], states[i + 1];
      && |s'.threads| == |s.threads|
      && (s.threads[t] != Outside && s'.threads[t] == Outside <==> s'.log == s.log + [Returned(t)])
      && (s.threads[t] != Outside && s'.threads[t] == Outside ==> HasCompletion(s.log))
      && (s.threads[t] != Running && s'.threads[t] == Running <==> s'.log == s.log + [Started(t)])
      && (s.threads[t] == Running && s'.threads[t] != Running <==> s'.log == s.log + [Completed(t)])
  {
    hide HasCompletion;
    RunKeepsInv(states, order, i);
    var s, u := states[i], order[i];
    assert states[i + 1] == Step(s, u);
    assert Busy(s.threads[u]) ==> BusyAt(s.threads, u);
    assert forall e: Event :: s.log + [e] != s.log;
    LastEvent(s.log);
  }

  lemma LastEvent(log: seq<Event>)
    ensures forall d, e: Event :: log + [d] == log + [e] ==> d == e
  {
    forall d, e: Event | log + [d] == log + [e]
      ensures d == e
    {
      assert (log + [d])[|log|] == d && (log + [e])[|log|] == e;
    }
  }

  function Rank(f: Flag): nat {
    match f
    case Uninitialized => 0
    case Executing => 1
    case Done => 2
  }

  /** The flag only moves from 0 to 1 and from 1 to 2, one step at a time. */
  lemma FlagOnlyAdvances(states: seq<State>, order: seq<nat>, i: nat)
    requires IsRun(states, order) && i < |order|
    ensures Rank(states[i].flag) <= Rank(states[i + 1].flag) <= Rank(states[i].flag) + 1
  {
    RunKeepsInv(states, order, i);
    var s, t := states[i], order[i];
    assert Busy(s.threads[t]) ==> BusyAt(s.threads, t);
  }

  /** How much of its call a thread has left once nobody has to be waited for. */
  function Left(p: Phase): nat {
    match p
    case Outside => 0
    case Checking => 5
    case Loading => 4
    case Swapping => 3
    case Running => 2
    case Storing => 1
    case Spinning => 1
  }

  /** Every step inside a call brings its end nearer, except a turn of the spin loop while the closure has not
      completed; then another thread is in the closure or about to store. */
  lemma CallsEnd(states: seq<State>, order: seq<nat>, i: nat)
    requires IsRun(states, order) && i < |order| && states[i].threads[order[i]] != Outside
    ensures var s, n, t := states[i], states[i + 1], order[i];
      || Left(n.threads[t]) < Left(s.threads[t])
      || (n == s && exists u :: u != t && BusyAt(s.threads, u))
  {
    RunKeepsInv(states, order, i);
    var s, t := states[i], order[i];
    if s.threads[t] == Spinning && s.flag == Executing {
      var u :| BusyAt(s.threads, u);
      assert u != t;
    }
  }
}
