/** What a join leaves behind: how many tasks can be pending in a STOPPED pool, and exactly when any are. */
module ThreadPoolJoin {
  import opened Totals
  import opened ThreadPool
  import opened ThreadPoolSafety
  import opened ThreadPoolTheorems
  import opened ThreadPoolProgress

  // ----- Late tasks ---------------------------------------------------------------------------------

  /** Signals on max_monitor_ move no producer in or out of Add. */
  lemma SignalsKeepTotal(ps: seq<ProducerPhase>, ps': seq<ProducerPhase>)
    requires NotifyProducer(ps, ps') || ps' == ps
    ensures Total(ps', IsInside) == Total(ps, IsInside)
  {
    if ps' != ps {
      SignalsKeepInside(ps, ps');
    }
  }

  lemma ResumeIsLate(c: Config, s: State, a: Action, s': State)
    requires a.AddResume? && AddResumeStep(c, s, a, s')
    ensures |s'.log.accepted| + Total(s'.producers, IsInside) == |s.log.accepted| + Total(s.producers, IsInside)
  {
    TotalUpdate(s.producers, a.producer, s'.producers[a.producer], IsInside);
  }

  lemma LoopIsNotLate(c: Config, s: State, a: Action, s': State)
    requires a.WorkerLoop? && WorkerLoopStep(c, s, a, s')
    ensures s'.log.accepted == s.log.accepted && Total(s'.producers, IsInside) == Total(s.producers, IsInside)
  {
    SignalsKeepTotal(s.producers, s'.producers);
  }

  lemma ProducerIsNotLate(c: Config, s: State, a: Action, s': State)
    requires (a.AddTimeout? || a.SpuriousProducer?) && Next(c, s, a, s')
    ensures s'.log.accepted == s.log.accepted && Total(s'.producers, IsInside) <= Total(s.producers, IsInside)
  {
    TotalUpdate(s.producers, a.producer, s'.producers[a.producer], IsInside);
  }

  lemma OthersAreNotLate(c: Config, s: State, a: Action, s': State)
    requires Inv(c, s) && !BeforeStop(s.manager) && Next(c, s, a, s')
    requires !a.AddResume? && !a.AddTimeout? && !a.SpuriousProducer? && !a.WorkerLoop?
    ensures s'.log.accepted == s.log.accepted && s'.producers == s.producers
  {
  }

  /** After a stop request only a producer that is inside Add can push, and pushing takes it out. */
  lemma LateStep(c: Config, s: State, a: Action, s': State)
    requires Inv(c, s) && !BeforeStop(s.manager) && Next(c, s, a, s')
    ensures |s'.log.accepted| + Total(s'.producers, IsInside) <= |s.log.accepted| + Total(s.producers, IsInside)
  {
    hide Inv, AddResumeStep, WorkerLoopStep;
    if a.AddResume? {
      ResumeIsLate(c, s, a, s');
    } else if a.AddTimeout? || a.SpuriousProducer? {
      ProducerIsNotLate(c, s, a, s');
    } else if a.WorkerLoop? {
      LoopIsNotLate(c, s, a, s');
    } else {
      OthersAreNotLate(c, s, a, s');
    }
  }

  lemma {:induction false} LateRun(c: Config, actions: seq<Action>, states: seq<State>, k: nat, n: nat)
    requires IsRun(c, actions, states) && k < n < |states| && actions[k].StopRequest?
    ensures |states[n].log.accepted| + Total(states[n].producers, IsInside) <=
              |states[k].log.accepted| + Total(states[k].producers, IsInside)
  {
    hide Inv, Next;
    RequestTakesNobodyOut(c, states[k], actions[k], states[k + 1]);
    if n > k + 1 {
      LateRun(c, actions, states, k, n - 1);
      RunKeepsInv(c, actions, states, n - 1);
      StopIsRemembered(c, actions, states, k, n - 1);
      LateStep(c, states[n - 1], actions[n - 1], states[n]);
    }
  }

  lemma RequestTakesNobodyOut(c: Config, s: State, a: Action, s': State)
    requires a.StopRequest? && Next(c, s, a, s')
    ensures s'.producers == s.producers && s'.log.accepted == s.log.accepted
  {
  }

  /** A joined pool that is STOPPED has at most as many pending tasks as producers were inside Add when the join
      was requested. */
  lemma JoinLeavesAtMost(c: Config, actions: seq<Action>, states: seq<State>, k: nat, n: nat)
    requires IsRun(c, actions, states) && k < n < |states|
    requires c.workerTotal > 0 && actions[k] == StopRequest(true) && states[n].poolState == Stopped
    ensures |states[n].queue| <= Total(states[k].producers, IsInside)
  {
    var s := states[n];
    StopIsRemembered(c, actions, states, k, n);
    RunKeepsDrained(c, actions, states, n);
    RunConserves(c, actions, states, n);
    LateRun(c, actions, states, k, n);
    NoneRegistered(s.workers);
    assert Gone(s.workers[0]);
  }

  /** With no producer inside Add at the request, every task ever accepted has run to its end, expired or been
      handed back. */
  lemma JoinLeavesNothing(c: Config, actions: seq<Action>, states: seq<State>, k: nat, n: nat)
    requires IsRun(c, actions, states) && k < n < |states|
    requires c.workerTotal > 0 && actions[k] == StopRequest(true) && states[n].poolState == Stopped
    requires AllOutside(states[k].producers)
    ensures states[n].queue == [] && states[n].log.accepted == states[k].log.accepted
    ensures forall t :: t in states[n].log.accepted ==>
              t in states[n].log.finished || t in states[n].log.expired || t in states[n].log.handedBack
  {
    hide Next;
    TotalPositive(states[k].producers, IsInside);
    JoinLeavesAtMost(c, actions, states, k, n);
    LateRun(c, actions, states, k, n);
    StopIsRemembered(c, actions, states, k, n);
    JoinDrains(c, actions, states, k, n);
  }

  // ----- Exactly when something is left -------------------------------------------------------------

  predicate AllGone(ws: seq<WorkerPhase>) {
    forall i :: 0 <= i < |ws| ==> Gone(ws[i])
  }

  /** A task accepted when no worker is left to take it. */
  ghost predicate PushedTooLate(states: seq<State>, i: nat)
    requires i + 1 < |states|
  {
    AllGone(states[i].workers) && states[i + 1].log.accepted != states[i].log.accepted
  }

  ghost predicate InJoin(c: Config, s: State) {
    Inv(c, s) && s.log.joining && !BeforeStop(s.manager) && |s.workers| > 0
  }

  lemma GoneResume(c: Config, s: State, a: Action, s': State)
    requires AllGone(s.workers) && a.AddResume? && AddResumeStep(c, s, a, s')
    ensures AllGone(s'.workers)
    ensures if s'.log.accepted == s.log.accepted then s'.queue == s.queue else s'.queue != []
  {
    assert IsFull(c, s.queue) ==> s'.queue == s.queue;
    assert forall i :: 0 <= i < |s.workers| ==> Gone(s.workers[i]) && s'.workers[i] == s.workers[i];
  }

  lemma GoneOther(c: Config, s: State, a: Action, s': State)
    requires InJoin(c, s) && AllGone(s.workers) && Next(c, s, a, s') && !a.AddResume?
    ensures AllGone(s'.workers) && s'.log.accepted == s.log.accepted && s'.queue == s.queue
  {
    hide Counters, ManagerAwaited, NoLostWakeup, AddResumeStep;
    assert Gone(s.workers[0]);
  }

  /** Without workers the queue changes only by a late task. */
  lemma GoneStep(c: Config, s: State, a: Action, s': State)
    requires InJoin(c, s) && AllGone(s.workers) && Next(c, s, a, s')
    ensures AllGone(s'.workers)
    ensures if s'.log.accepted == s.log.accepted then s'.queue == s.queue else s'.queue != []
  {
    hide InJoin, AllGone, AddResumeStep;
    if a.AddResume? {
      GoneResume(c, s, a, s');
    } else {
      GoneOther(c, s, a, s');
    }
  }

  /** The last worker leaves an empty queue. */
  lemma LastLeaves(c: Config, s: State, a: Action, s': State)
    requires InJoin(c, s) && !AllGone(s.workers) && Next(c, s, a, s') && AllGone(s'.workers)
    ensures s'.queue == []
  {
    if a.WorkerLoop? {
      WorkerLoopEffect(c, s, a, s');
      assert Gone(s'.workers[a.worker]);
    } else {
      SomeoneStays(c, s, a, s');
    }
  }

  /** No other step is the exit of a worker. */
  lemma SomeoneStays(c: Config, s: State, a: Action, s': State)
    requires InJoin(c, s) && !AllGone(s.workers) && Next(c, s, a, s') && !a.WorkerLoop?
    ensures !AllGone(s'.workers)
  {
    hide Next, RemoveWorkersStep;
    StepKeepsInv(c, s, a, s');
    var i :| 0 <= i < |s.workers| && !Gone(s.workers[i]);
    if a.RemoveWorkers? {
      RemovalStep(c, s, a, s');
      NobodyGoneAtRemoval(c, s, s', i);
    } else {
      NobodyElseGone(c, s, a, s', i);
    }
    assert !Gone(s'.workers[i]);
  }

  lemma RemovalStep(c: Config, s: State, a: Action, s': State)
    requires a.RemoveWorkers? && Next(c, s, a, s')
    ensures RemoveWorkersStep(s, s')
  {
  }

  lemma {:induction false} JoinPersists(c: Config, actions: seq<Action>, states: seq<State>, k: nat, n: nat)
    requires IsRun(c, actions, states) && k < n < |states| && c.workerTotal > 0 && actions[k] == StopRequest(true)
    ensures InJoin(c, states[n])
  {
    StopIsRemembered(c, actions, states, k, n);
    RunKeepsInv(c, actions, states, n);
  }

  ghost predicate NoneTooLate(states: seq<State>, k: nat, n: nat) {
    forall i: nat :: k < i < n && i + 1 < |states| ==> !PushedTooLate(states, i)
  }

  /** While a worker is left none has been late; then the queue holds exactly the late ones. */
  lemma {:induction false} LeftOver(c: Config, actions: seq<Action>, states: seq<State>, k: nat, n: nat)
    requires IsRun(c, actions, states) && k < n < |states| && c.workerTotal > 0 && actions[k] == StopRequest(true)
    ensures !AllGone(states[n].workers) ==> NoneTooLate(states, k, n)
    ensures AllGone(states[n].workers) ==> (states[n].queue == [] <==> NoneTooLate(states, k, n))
  {
    hide Next, InJoin;
    if n == k + 1 {
      NobodyGoneYet(c, actions, states, k);
    } else {
      LeftOver(c, actions, states, k, n - 1);
      JoinPersists(c, actions, states, k, n - 1);
      var s, a, s' := states[n - 1], actions[n - 1], states[n];
      assert NoneTooLate(states, k, n) <==> NoneTooLate(states, k, n - 1) && !PushedTooLate(states, n - 1);
      if AllGone(s.workers) {
        GoneStep(c, s, a, s');
      } else if AllGone(s'.workers) {
        LastLeaves(c, s, a, s');
      }
    }
  }

  lemma NobodyGoneYet(c: Config, actions: seq<Action>, states: seq<State>, k: nat)
    requires IsRun(c, actions, states) && k < |actions| && c.workerTotal > 0 && actions[k] == StopRequest(true)
    ensures !AllGone(states[k + 1].workers)
  {
    RunKeepsInv(c, actions, states, k + 1);
    assert Next(c, states[k], actions[k], states[k + 1]);
    assert !Gone(states[k + 1].workers[0]);
  }

  /** A joined pool that is STOPPED has nothing pending if and only if no task was accepted after its last worker
      had left. */
  lemma JoinLeavesExactly(c: Config, actions: seq<Action>, states: seq<State>, k: nat, n: nat)
    requires IsRun(c, actions, states) && k < n < |states|
    requires c.workerTotal > 0 && actions[k] == StopRequest(true) && states[n].poolState == Stopped
    ensures states[n].queue == [] <==> NoneTooLate(states, k, n)
  {
    hide Next;
    LeftOver(c, actions, states, k, n);
    RunKeepsInv(c, actions, states, n);
    StopIsRemembered(c, actions, states, k, n);
    NoneRegistered(states[n].workers);
  }
}
