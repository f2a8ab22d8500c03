/** Liveness of the thread pool: no reachable state is stuck with work to do, and shutdown ends. */
module ThreadPoolProgress {
  import opened Totals
  import opened ThreadPool
  import opened ThreadPoolSafety

  // ----- Producers ----------------------------------------------------------------------------------

  ghost predicate SomeBlocked(ps: seq<ProducerPhase>) {
    exists i :: 0 <= i < |ps| && ps[i].Blocked?
  }

  ghost predicate SomeWoken(ps: seq<ProducerPhase>) {
    exists i :: 0 <= i < |ps| && ps[i].Woken?
  }

  /** While a producer is blocked there is a limit and a task to take, or another producer is on its way. */
  ghost predicate ProducersAwaited(c: Config, s: State) {
    SomeBlocked(s.producers) ==> c.limit > 0 && (s.queue != [] || SomeWoken(s.producers))
  }

  /** The two steps that leave a blocked producer behind: taking the last task without a signal, and timing out
      with the only signal in hand. */
  ghost predicate Strands(s: State, a: Action) {
    match a
    case RemoveNextPending =>
      s.poolState == Started && |s.queue| == 1 && SomeBlocked(s.producers) && !SomeWoken(s.producers)
    case AddTimeout(p) =>
      && s.queue == [] && p < |s.producers|
      && SomeBlocked(s.producers[p := Outside]) && !SomeWoken(s.producers[p := Outside])
    case _ => false
  }

  lemma AddKeepsProducersAwaited(c: Config, s: State, a: Action, s': State)
    requires ProducersAwaited(c, s) && a.Add? && AddStep(c, s, a, s')
    ensures ProducersAwaited(c, s')
  {
    if s.poolState == Started {
      var swept := DropExpired(s, a.now);
      assert swept.producers == s.producers;
      if IsFull(c, swept.queue) {
        assert s'.queue != [];
      } else {
        assert s'.queue == swept.queue + [MakeTask(swept, a.expiration, a.clock)];
      }
    }
  }

  lemma LoopKeepsProducersAwaited(c: Config, s: State, a: Action, s': State)
    requires ProducersAwaited(c, s) && a.WorkerLoop? && WorkerLoopStep(c, s, a, s')
    ensures ProducersAwaited(c, s')
  {
    if IsActive(s) && s.queue != [] {
      if i :| 0 <= i < |s'.producers| && s'.producers[i].Blocked? {
        assert s.producers[i].Blocked? && SomeBlocked(s.producers);
        if s'.queue == [] {
          var j :| 0 <= j < |s.producers| && s.producers[j].Blocked? && s'.producers[j].Woken?;
          assert SomeWoken(s'.producers);
        }
      }
    }
  }

  lemma ResumeKeepsProducersAwaited(c: Config, s: State, a: Action, s': State)
    requires ProducersAwaited(c, s) && a.AddResume? && AddResumeStep(c, s, a, s')
    ensures ProducersAwaited(c, s')
  {
    assert s'.queue != [];
    if i :| 0 <= i < |s'.producers| && s'.producers[i].Blocked? {
      assert i != a.producer ==> s.producers[i].Blocked?;
      assert i == a.producer ==> c.limit > 0;
    }
  }

  /** A step from an awaited state keeps it awaited, unless and only unless it strands. */
  lemma StepKeepsProducersAwaited(c: Config, s: State, a: Action, s': State)
    requires ProducersAwaited(c, s) && Next(c, s, a, s')
    ensures ProducersAwaited(c, s') <==> !Strands(s, a)
  {
    match a
    case Add(_, _, _, _, _, _) => AddKeepsProducersAwaited(c, s, a, s');
    case WorkerLoop(_, _) => LoopKeepsProducersAwaited(c, s, a, s');
    case AddResume(p, _) => ResumeKeepsProducersAwaited(c, s, a, s');
    case SpuriousProducer(p) =>
      assert s'.producers[p].Woken?;
    case AddTimeout(p) =>
      assert forall i :: 0 <= i < |s'.producers| && s'.producers[i].Blocked? ==> s.producers[i].Blocked?;
    case _ =>
  }

  /** Over every run: the producers are awaited throughout if and only if no step strands one. */
  lemma {:induction false} RunKeepsProducersAwaited(c: Config, actions: seq<Action>, states: seq<State>, n: nat)
    requires IsRun(c, actions, states) && n < |states|
    ensures (forall i :: 0 <= i <= n ==> ProducersAwaited(c, states[i])) <==>
            (forall i :: 0 <= i < n ==> !Strands(states[i], actions[i]))
  {
    hide Next, Strands;
    if n == 0 {
      InitAwaited(c, states[0]);
    } else {
      RunKeepsProducersAwaited(c, actions, states, n - 1);
      if forall i :: 0 <= i < n ==> ProducersAwaited(c, states[i]) {
        StepKeepsProducersAwaited(c, states[n - 1], actions[n - 1], states[n]);
      }
    }
  }

  lemma InitAwaited(c: Config, s: State)
    requires s == InitState(c)
    ensures ProducersAwaited(c, s)
  {
  }

  // ----- Enabled steps ------------------------------------------------------------------------------

  /** A step of a thread that is already inside the pool and needs nobody's call to go on. */
  predicate Internal(a: Action) {
    a.AddTest? || a.Register? || a.Announce? || a.WorkerLoop? || a.FinishTask? || a.Retire? || a.AddResume?
    || a.ReadWorkerCount? || a.RemoveWorkers? || a.JoinTest? || a.MarkStopped?
  }

  ghost predicate Enabled(c: Config, s: State, a: Action) {
    exists s' :: Next(c, s, a, s')
  }

  /** No thread inside the pool can move by itself. */
  ghost predicate Quiescent(c: Config, s: State) {
    forall a :: Internal(a) ==> !Enabled(c, s, a)
  }

  lemma SignalExists(ws: seq<WorkerPhase>)
    ensures NotifyWorker(ws, NotifyAllWorkers(ws))
  {
    if i :| 0 <= i < |ws| && ws[i].Waiting? {
      assert NotifyAllWorkers(ws)[i].Signalled?;
    }
  }

  lemma {:induction false} SignalsExist(times: nat, ws: seq<WorkerPhase>) returns (ws': seq<WorkerPhase>)
    ensures NotifyWorkers(times, ws, ws')
    decreases times
  {
    ws' := ws;
    if times > 0 {
      SignalExists(ws);
      ws' := SignalsExist(times - 1, NotifyAllWorkers(ws));
    }
  }

  lemma ProducerSignalExists(ps: seq<ProducerPhase>) returns (ps': seq<ProducerPhase>)
    ensures NotifyProducer(ps, ps')
  {
    ps' := seq(|ps|, i requires 0 <= i < |ps| =>
      if ps[i].Blocked? then Woken(ps[i].timed, ps[i].expiration) else ps[i]);
    if i :| 0 <= i < |ps| && ps[i].Blocked? {
      assert ps'[i].Woken?;
    }
  }

  lemma WorkerLoopEnabled(c: Config, s: State, w: nat)
    requires w < |s.workers| && (s.workers[w].Checking? || s.workers[w].Signalled?)
    ensures Enabled(c, s, WorkerLoop(w, 0))
  {
    var a := WorkerLoop(w, 0);
    var idle := if s.workers[w].Signalled? then s.idleCount - 1 else s.idleCount;
    if !IsActive(s) {
      var s' := s.(idleCount := idle, workers := s.workers[w := Exiting]);
      assert Next(c, s, a, s');
    } else if s.queue == [] {
      var s' := s.(idleCount := idle + 1, workers := s.workers[w := Waiting]);
      assert Next(c, s, a, s');
    } else {
      var took := TakeTask(s, w, 0).(idleCount := idle);
      var ps := ProducerSignalExists(s.producers);
      var s' := if c.limit != 0 && |took.queue| <= c.limit - 1 then took.(producers := ps) else took;
      assert Next(c, s, a, s');
    }
  }

  /** Every registered or starting worker that does not sleep has a step to take. */
  lemma WorkerEnabled(c: Config, s: State, w: nat) returns (a: Action)
    requires w < |s.workers|
    requires !s.workers[w].Unborn? && !s.workers[w].Waiting? && !s.workers[w].Dead?
    ensures Internal(a) && Enabled(c, s, a)
  {
    match s.workers[w]
    case Starting =>
      a := Register(w);
      var s' := if s.workerCount < s.workerMax
                then s.(workerCount := s.workerCount + 1,
                        workers := s.workers[w := if s.workerCount + 1 == s.workerMax then Announcing else Checking])
                else s.(workers := s.workers[w := Exiting]);
      assert Next(c, s, a, s');
    case Announcing =>
      a := Announce(w);
      assert Next(c, s, a, s.(workers := s.workers[w := Checking], manager := NotifyManager(s.manager)));
    case Executing(t) =>
      a := FinishTask(w);
      assert Next(c, s, a, s.(workers := s.workers[w := Checking], log := s.log.(finished := s.log.finished + [t])));
    case Exiting =>
      a := Retire(w);
      var s' := s.(workerCount := s.workerCount - 1, workers := s.workers[w := Dead],
                   manager := if s.workerCount - 1 == s.workerMax then NotifyManager(s.manager) else s.manager);
      assert Next(c, s, a, s');
    case _ =>
      a := WorkerLoop(w, 0);
      WorkerLoopEnabled(c, s, w);
  }

  lemma ResumeEnabled(c: Config, s: State, p: nat)
    requires p < |s.producers| && s.producers[p].Woken?
    ensures Enabled(c, s, AddResume(p, 0))
  {
    var a := AddResume(p, 0);
    var ph := s.producers[p];
    if IsFull(c, s.queue) {
      assert Next(c, s, a, s.(producers := s.producers[p := Blocked(ph.timed, ph.expiration)]));
    } else {
      var left := s.(producers := s.producers[p := Outside]);
      var pushed := Enqueue(left, MakeTask(left, ph.expiration, 0));
      SignalExists(s.workers);
      var s' := if s.idleCount > 0 then pushed.(workers := NotifyAllWorkers(s.workers)) else pushed;
      assert PushStep(left, ph.expiration, 0, s');
      assert Next(c, s, a, s');
    }
  }

  /** The manager has a step to take unless it waits on worker_monitor_ or for a caller. */
  lemma ManagerEnabled(c: Config, s: State) returns (a: Action)
    requires s.idleCount >= 0
    requires s.manager.AddCheck? || s.manager.ReadCount? || s.manager.Shrink? || s.manager.JoinCheck? || s.manager.SetStopped?
    ensures Internal(a) && Enabled(c, s, a)
  {
    match s.manager
    case AddCheck =>
      a := AddTest;
      assert Next(c, s, a, s.(manager := if s.workerCount == s.workerMax then Ready else AddWait));
    case ReadCount =>
      a := ReadWorkerCount;
      assert Next(c, s, a, s.(manager := Shrink(s.workerCount)));
    case Shrink(value) =>
      a := RemoveWorkers;
      if value > s.workerMax {
        assert Next(c, s, a, s.(manager := Threw));
      } else {
        var ws := SignalsExist(s.idleCount, s.workers);
        var ws' := if s.idleCount < value then ws else NotifyAllWorkers(s.workers);
        assert Next(c, s, a, s.(manager := JoinCheck, workerMax := s.workerMax - value, workers := ws'));
      }
    case JoinCheck =>
      a := JoinTest;
      assert Next(c, s, a, s.(manager := if s.workerCount == s.workerMax then SetStopped else JoinWait));
    case SetStopped =>
      a := MarkStopped;
      assert Next(c, s, a, s.(manager := Finished, poolState := Stopped));
  }

  // ----- No deadlock --------------------------------------------------------------------------------

  /** If nothing inside the pool can move, AddWorker and StopImpl have returned: either every worker sleeps on an
      empty queue, or the pool is STOPPED with every worker gone. */
  lemma QuiescentPool(c: Config, actions: seq<Action>, states: seq<State>, n: nat)
    requires IsRun(c, actions, states) && n < |states|
    requires c.workerTotal > 0 && !states[n].manager.Created? && Quiescent(c, states[n])
    ensures states[n].manager.Ready? || states[n].manager.Finished?
    ensures states[n].manager.Ready? ==>
              states[n].queue == [] && forall i :: 0 <= i < |states[n].workers| ==> states[n].workers[i].Waiting?
    ensures states[n].manager.Finished? ==>
              states[n].poolState == Stopped && forall i :: 0 <= i < |states[n].workers| ==> states[n].workers[i].Dead?
  {
    var s := states[n];
    RunKeepsInv(c, actions, states, n);
    forall i | 0 <= i < |s.workers|
      ensures s.workers[i].Waiting? || s.workers[i].Dead?
    {
      if !s.workers[i].Waiting? && !s.workers[i].Dead? {
        var a := WorkerEnabled(c, s, i);
        assert false;
      }
    }
    TotalPositive(s.workers, Asleep);
    TotalPositive(s.workers, Alert);
    if s.manager.AddCheck? || s.manager.ReadCount? || s.manager.Shrink? || s.manager.JoinCheck? || s.manager.SetStopped? {
      var a := ManagerEnabled(c, s);
      assert false;
    }
    if Serving(s.manager) {
      AllRegistered(s.workers);
      assert Asleep(s.workers[0]) > 0;
    } else {
      assert forall i :: 0 <= i < |s.workers| ==> Asleep(s.workers[i]) == 0;
      TotalPositive(s.workers, Registered);
    }
  }

  /** No STARTED state is deadlocked: a pool with a worker in which nothing can move has no pending task, and it
      has no producer inside Add if and only if the producers are awaited; so none in any run without a step
      that strands. */
  lemma NoDeadlock(c: Config, actions: seq<Action>, states: seq<State>, n: nat)
    requires IsRun(c, actions, states) && n < |states| && c.workerTotal > 0
    requires !states[n].manager.Created? && states[n].poolState == Started && Quiescent(c, states[n])
    ensures states[n].queue == []
    ensures AllOutside(states[n].producers) <==> ProducersAwaited(c, states[n])
    ensures (forall i :: 0 <= i < n ==> !Strands(states[i], actions[i])) ==> AllOutside(states[n].producers)
  {
    var s := states[n];
    RunKeepsInv(c, actions, states, n);
    QuiescentPool(c, actions, states, n);
    RunKeepsProducersAwaited(c, actions, states, n);
    forall p | 0 <= p < |s.producers|
      ensures !s.producers[p].Woken?
    {
      if s.producers[p].Woken? {
        ResumeEnabled(c, s, p);
        assert Internal(AddResume(p, 0));
      }
    }
    assert AllOutside(s.producers) <==> !SomeBlocked(s.producers);
  }

  ghost predicate AllOutside(ps: seq<ProducerPhase>) {
    forall p :: 0 <= p < |ps| ==> ps[p].Outside?
  }

  // ----- Shutdown -----------------------------------------------------------------------------------

  /** worker_max_count_ has been lowered to 0. */
  predicate ShuttingDown(s: State) {
    s.manager.JoinCheck? || s.manager.JoinWait? || s.manager.SetStopped? || s.manager.Finished?
  }

  function WorkerSteps(p: WorkerPhase): nat {
    match p
    case Announcing => 6
    case Executing(_) => 5
    case Checking => 4
    case Signalled => 4
    case Exiting => 2
    case _ => 0
  }

  function ManagerSteps(m: ManagerPhase): nat {
    match m
    case JoinCheck => 3
    case JoinWait => 2
    case SetStopped => 1
    case _ => 0
  }

  function IsInside(p: ProducerPhase): nat { if p.Outside? then 0 else 1 }

  function IsWoken(p: ProducerPhase): nat { if p.Woken? then 1 else 0 }

  /** Tasks that a worker may still have to take: pending, or in the hands of a producer inside Add. */
  function Work(s: State): nat {
    |s.queue| + Total(s.producers, IsInside)
  }

  /** Bounds how many steps are left. */
  function StepsLeft(s: State): nat {
    Work(s) * (|s.producers| + 2) + Total(s.producers, IsWoken) + Total(s.workers, WorkerSteps) + ManagerSteps(s.manager)
  }

  predicate Spurious(a: Action) {
    a.SpuriousWorker? || a.SpuriousProducer? || a.SpuriousManager?
  }

  /** Signals put producers on the move but keep them inside. */
  lemma {:induction false} SignalsKeepInside(ps: seq<ProducerPhase>, ps': seq<ProducerPhase>)
    requires NotifyProducer(ps, ps')
    ensures Total(ps', IsInside) == Total(ps, IsInside)
    ensures Total(ps', IsWoken) <= |ps|
  {
    TotalMonotone(ps, ps', IsInside, IsInside);
    TotalMonotone(ps', ps, IsInside, IsInside);
    TotalBound(ps', IsWoken);
  }

  lemma WorkShrinks(work: nat, work': nat, k: nat)
    requires work' < work
    ensures work' * k + k <= work * k
  {
    var d := work - work' - 1;
    assert work == d + work' + 1;
    assert (d + work' + 1) * k == d * k + work' * k + k;
    assert d * k >= 0;
  }

  /** Less work pays for a worker's step and for waking every producer. */
  lemma WorkPays(s: State, s': State)
    requires |s'.producers| == |s.producers| && Work(s') < Work(s) && s'.manager == s.manager
    requires Total(s'.workers, WorkerSteps) <= Total(s.workers, WorkerSteps) + 1
    ensures StepsLeft(s') < StepsLeft(s)
  {
    TotalBound(s'.producers, IsWoken);
    WorkShrinks(Work(s), Work(s'), |s.producers| + 2);
  }

  lemma LoopShrinks(c: Config, s: State, a: Action, s': State)
    requires Inv(c, s) && ShuttingDown(s) && a.WorkerLoop? && WorkerLoopStep(c, s, a, s')
    ensures StepsLeft(s') < StepsLeft(s)
  {
    var w := a.worker;
    WorkerLoopEffect(c, s, a, s');
    AllAwakeCounted(s.workers, w);
    TotalUpdate(s.workers, w, s'.workers[w], WorkerSteps);
    if IsActive(s) {
      if s'.producers != s.producers {
        SignalsKeepInside(s.producers, s'.producers);
      }
      WorkPays(s, s');
    }
  }

  lemma PushShrinks(c: Config, s: State, a: Action, s': State)
    requires Inv(c, s) && ShuttingDown(s) && a.AddResume? && AddResumeStep(c, s, a, s')
    ensures StepsLeft(s') < StepsLeft(s)
  {
    var p := a.producer;
    TotalUpdate(s.producers, p, s'.producers[p], IsInside);
    TotalUpdate(s.producers, p, s'.producers[p], IsWoken);
    if !IsFull(c, s.queue) {
      TotalPositive(s.workers, Asleep);
      assert forall i :: 0 <= i < |s.workers| ==> Asleep(s.workers[i]) == 0;
      assert s'.workers == s.workers;
      assert Work(s') == Work(s);
    }
  }

  lemma TimeoutShrinks(c: Config, s: State, p: nat, s': State)
    requires Next(c, s, AddTimeout(p), s')
    ensures StepsLeft(s') < StepsLeft(s)
  {
    TotalUpdate(s.producers, p, Outside, IsInside);
    TotalUpdate(s.producers, p, Outside, IsWoken);
    WorkShrinks(Work(s), Work(s'), |s.producers| + 2);
  }

  lemma AnnounceShrinks(c: Config, s: State, w: nat, s': State)
    requires Next(c, s, Announce(w), s')
    ensures StepsLeft(s') < StepsLeft(s)
  {
    TotalUpdate(s.workers, w, Checking, WorkerSteps);
    assert ManagerSteps(s'.manager) <= ManagerSteps(s.manager) + 1;
  }

  lemma FinishShrinks(c: Config, s: State, w: nat, s': State)
    requires Next(c, s, FinishTask(w), s')
    ensures StepsLeft(s') < StepsLeft(s)
  {
    TotalUpdate(s.workers, w, Checking, WorkerSteps);
  }

  lemma RetireShrinks(s: State, w: nat, s': State)
    requires RetireStep(s, w, s')
    ensures StepsLeft(s') < StepsLeft(s)
  {
    TotalUpdate(s.workers, w, Dead, WorkerSteps);
    assert ManagerSteps(s'.manager) <= ManagerSteps(s.manager) + 1;
  }

  /** Of the other steps only the manager's last two do anything. */
  lemma ManagerShrinks(c: Config, s: State, a: Action, s': State)
    requires Inv(c, s) && ShuttingDown(s) && Next(c, s, a, s') && !Spurious(a) && s' != s
    requires !a.WorkerLoop? && !a.AddResume? && !a.AddTimeout? && !a.Announce? && !a.FinishTask? && !a.Retire?
    ensures StepsLeft(s') < StepsLeft(s)
  {
    assert a.JoinTest? || a.MarkStopped?;
    assert s' == s.(manager := s'.manager, poolState := s'.poolState);
  }

  /** Once the worker maximum is 0, every step that is not a spurious wake-up and changes anything brings the
      end nearer. */
  lemma ShutdownShrinks(c: Config, s: State, a: Action, s': State)
    requires Inv(c, s) && ShuttingDown(s) && Next(c, s, a, s') && !Spurious(a) && s' != s
    ensures StepsLeft(s') < StepsLeft(s)
  {
    if a.WorkerLoop? {
      LoopShrinks(c, s, a, s');
    } else if a.AddResume? {
      PushShrinks(c, s, a, s');
    } else if a.AddTimeout? {
      TimeoutShrinks(c, s, a.producer, s');
    } else if a.Announce? {
      AnnounceShrinks(c, s, a.worker, s');
    } else if a.FinishTask? {
      FinishShrinks(c, s, a.worker, s');
    } else if a.Retire? {
      RetireShrinks(s, a.worker, s');
    } else {
      ManagerShrinks(c, s, a, s');
    }
  }

  /** Shutting down is never undone and no worker sleeps on monitor_ again. */
  lemma ShutdownStays(c: Config, s: State, a: Action, s': State)
    requires Inv(c, s) && ShuttingDown(s) && Next(c, s, a, s')
    ensures ShuttingDown(s') && forall i :: 0 <= i < |s'.workers| ==> !s'.workers[i].Waiting?
  {
    StepKeepsInv(c, s, a, s');
    TotalPositive(s'.workers, Asleep);
    assert forall i :: 0 <= i < |s'.workers| ==> Asleep(s'.workers[i]) == 0;
  }

  /** A spurious wake-up sets the shutdown back by at most one step. */
  lemma SpuriousCosts(c: Config, s: State, a: Action, s': State)
    requires Inv(c, s) && ShuttingDown(s) && Next(c, s, a, s') && Spurious(a)
    ensures StepsLeft(s') <= StepsLeft(s) + 1
  {
    if a.SpuriousProducer? {
      WakingCosts(s, a.producer, s');
    } else if a.SpuriousWorker? {
      assert Asleep(s.workers[a.worker]) > 0;
      TotalPositive(s.workers, Asleep);
      assert false;
    } else {
      assert ManagerSteps(s'.manager) <= ManagerSteps(s.manager) + 1;
    }
  }

  lemma WakingCosts(s: State, p: nat, s': State)
    requires p < |s.producers| && s.producers[p].Blocked?
    requires s' == s.(producers := s.producers[p := Woken(s.producers[p].timed, s.producers[p].expiration)])
    ensures StepsLeft(s') == StepsLeft(s) + 1
  {
    TotalUpdate(s.producers, p, s'.producers[p], IsInside);
    TotalUpdate(s.producers, p, s'.producers[p], IsWoken);
    assert Work(s') == Work(s);
  }

  /** The steps of a run that change something and are no spurious wake-ups. */
  ghost function RealSteps(actions: seq<Action>, states: seq<State>, from: nat, n: nat): nat
    requires from <= n < |states| && |states| == |actions| + 1
  {
    if n == from then 0
    else RealSteps(actions, states, from, n - 1) +
         if !Spurious(actions[n - 1]) && states[n] != states[n - 1] then 1 else 0
  }

  ghost function SpuriousSteps(actions: seq<Action>, from: nat, n: nat): nat
    requires from <= n <= |actions|
  {
    if n == from then 0 else SpuriousSteps(actions, from, n - 1) + if Spurious(actions[n - 1]) then 1 else 0
  }

  /** A step of a thread inside the pool always changes something. */
  lemma InternalMoves(c: Config, s: State, a: Action, s': State)
    requires Internal(a) && Next(c, s, a, s')
    ensures s' != s && !Spurious(a)
  {
    if a.WorkerLoop? {
      WorkerLoopEffect(c, s, a, s');
    }
  }

  ghost predicate RealStepPossible(c: Config, s: State) {
    exists a, s' :: Internal(a) && Next(c, s, a, s') && s' != s && !Spurious(a)
  }

  /** Until StopImpl has returned, some thread inside the pool can take a real step. */
  lemma ShutdownMoves(c: Config, s: State)
    requires Inv(c, s) && ShuttingDown(s) && !s.manager.Finished?
    ensures RealStepPossible(c, s)
  {
    hide Next, Internal;
    var a;
    if s.manager.JoinWait? {
      TotalPositive(s.workers, Registered);
      TotalPositive(s.workers, Asleep);
      var w :| 0 <= w < |s.workers| && Registered(s.workers[w]) > 0;
      assert Asleep(s.workers[w]) == 0;
      a := WorkerEnabled(c, s, w);
    } else {
      a := ManagerEnabled(c, s);
    }
    var s' :| Next(c, s, a, s');
    InternalMoves(c, s, a, s');
  }

  /** Shutdown terminates, in every run: from a state with worker maximum 0 the real steps number at most
      StepsLeft plus one for each spurious wake-up; until StopImpl has returned another real step is possible;
      and when it has, the pool is STOPPED without a worker. */
  lemma {:induction false} ShutdownTerminates(c: Config, actions: seq<Action>, states: seq<State>, from: nat, n: nat)
    requires IsRun(c, actions, states) && from <= n < |states|
    requires ShuttingDown(states[from])
    ensures RealSteps(actions, states, from, n) + StepsLeft(states[n]) <=
              StepsLeft(states[from]) + SpuriousSteps(actions, from, n)
    ensures ShuttingDown(states[n])
    ensures states[n].manager.Finished? || RealStepPossible(c, states[n])
    ensures states[n].manager.Finished? ==> states[n].poolState == Stopped && states[n].workerCount == 0
  {
    hide Next, StepsLeft, Spurious, RealStepPossible;
    RunKeepsInv(c, actions, states, n);
    if from < n {
      ShutdownTerminates(c, actions, states, from, n - 1);
      RunKeepsInv(c, actions, states, n - 1);
      var s, a, s' := states[n - 1], actions[n - 1], states[n];
      if Spurious(a) {
        SpuriousCosts(c, s, a, s');
      } else if s' != s {
        ShutdownShrinks(c, s, a, s');
      }
      ShutdownStays(c, s, a, s');
    }
    if !states[n].manager.Finished? {
      ShutdownMoves(c, states[n]);
    }
  }
}
