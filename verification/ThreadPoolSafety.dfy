/** Invariants of every run of the thread pool: its counters, its wake-ups and its hand-over to the manager. */
module ThreadPoolSafety {
  import opened Totals
  import opened ThreadPool

  // ----- Phases as weights --------------------------------------------------------------------------

  /** Counted in worker_count_. */
  function Registered(p: WorkerPhase): nat {
    if p.Announcing? || p.Checking? || p.Waiting? || p.Signalled? || p.Executing? || p.Exiting? then 1 else 0
  }

  /** Counted in idle_count_. */
  function Idle(p: WorkerPhase): nat {
    if p.Waiting? || p.Signalled? then 1 else 0
  }

  function Asleep(p: WorkerPhase): nat {
    if p.Waiting? then 1 else 0
  }

  /** Awake or signalled, and not running a task: will look at the queue. */
  function Alert(p: WorkerPhase): nat {
    if p.Starting? || p.Announcing? || p.Checking? || p.Signalled? then 1 else 0
  }

  predicate Gone(p: WorkerPhase) { p.Exiting? || p.Dead? }

  // ----- The invariant ------------------------------------------------------------------------------

  /** The manager has not yet lowered worker_max_count_. */
  predicate Serving(m: ManagerPhase) {
    m.AddCheck? || m.AddWait? || m.Ready? || m.ReadCount? || m.Shrink?
  }

  ghost predicate Counters(c: Config, s: State) {
    && |s.workers| == c.workerTotal
    && |s.producers| == c.producerTotal
    && s.workerMax == (if Serving(s.manager) then c.workerTotal else 0)
    && s.workerCount == Total(s.workers, Registered)
    && s.idleCount == Total(s.workers, Idle)
  }

  ghost predicate Phases(s: State) {
    && (s.manager.Created? <==> !Serving(s.manager) && (s.poolState.Uninitialized? || s.poolState.Started?))
    && (s.manager.Created? ==> forall i :: 0 <= i < |s.workers| ==> s.workers[i].Unborn?)
    && (!s.manager.Created? ==> forall i :: 0 <= i < |s.workers| ==> !s.workers[i].Unborn?)
    && (Serving(s.manager) ==> forall i :: 0 <= i < |s.workers| ==> !Gone(s.workers[i]))
    && (!s.manager.Created? && !s.manager.AddCheck? && !s.manager.AddWait? ==>
          forall i :: 0 <= i < |s.workers| ==> !s.workers[i].Starting?)
    && !s.manager.Threw?
    && (s.manager.Shrink? ==> s.manager.value == s.workerMax)
  }

  ghost predicate HasAnnouncer(ws: seq<WorkerPhase>) {
    exists i :: 0 <= i < |ws| && ws[i].Announcing?
  }

  /** The manager never sleeps on worker_monitor_ past the signal it waits for. */
  ghost predicate ManagerAwaited(s: State) {
    && (s.manager.AddWait? ==> s.workerCount != s.workerMax || HasAnnouncer(s.workers))
    && (s.manager.JoinWait? ==> s.workerCount != s.workerMax)
    && (s.manager.SetStopped? || s.manager.Finished? ==> s.workerCount == 0)
  }

  predicate PoolStateFits(s: State) {
    match s.manager
    case Created => s.poolState.Uninitialized? || s.poolState.Started?
    case AddCheck => s.poolState.Uninitialized? || s.poolState.Started?
    case AddWait => s.poolState.Uninitialized? || s.poolState.Started?
    case Ready => s.poolState.Uninitialized? || s.poolState.Started?
    case Finished => s.poolState.Stopped?
    case _ => s.poolState == if s.log.joining then Joining else Stopping
  }

  /** No lost wake-up: while one worker sleeps, the others that will look at the queue are enough for it. */
  ghost predicate NoLostWakeup(s: State) {
    && (Serving(s.manager) && Total(s.workers, Asleep) > 0 ==> |s.queue| <= Total(s.workers, Alert))
    && (!Serving(s.manager) ==> Total(s.workers, Asleep) == 0)
  }

  ghost predicate Inv(c: Config, s: State) {
    Counters(c, s) && Phases(s) && ManagerAwaited(s) && PoolStateFits(s) && NoLostWakeup(s)
  }

  // ----- How the counters move ----------------------------------------------------------------------

  lemma SetPhase(ws: seq<WorkerPhase>, w: nat, x: WorkerPhase)
    requires w < |ws|
    ensures Total(ws[w := x], Registered) == Total(ws, Registered) - Registered(ws[w]) + Registered(x)
    ensures Total(ws[w := x], Idle) == Total(ws, Idle) - Idle(ws[w]) + Idle(x)
    ensures Total(ws[w := x], Asleep) == Total(ws, Asleep) - Asleep(ws[w]) + Asleep(x)
    ensures Total(ws[w := x], Alert) == Total(ws, Alert) - Alert(ws[w]) + Alert(x)
  {
    TotalUpdate(ws, w, x, Registered);
    TotalUpdate(ws, w, x, Idle);
    TotalUpdate(ws, w, x, Asleep);
    TotalUpdate(ws, w, x, Alert);
  }

  /** Every counter but those of the sleeping and the alert is blind to signals. */
  lemma {:induction false} SignalsKeepCounters(ws: seq<WorkerPhase>, ws': seq<WorkerPhase>)
    requires |ws'| == |ws|
    requires forall i :: 0 <= i < |ws| ==> ws'[i] == ws[i] || (ws[i].Waiting? && ws'[i].Signalled?)
    ensures Total(ws', Registered) == Total(ws, Registered)
    ensures Total(ws', Idle) == Total(ws, Idle)
    ensures Total(ws', Asleep) <= Total(ws, Asleep)
    ensures Total(ws', Alert) + Total(ws', Asleep) == Total(ws, Alert) + Total(ws, Asleep)
    ensures (exists i :: 0 <= i < |ws| && ws[i].Waiting? && ws'[i].Signalled?) ==> Total(ws', Asleep) < Total(ws, Asleep)
    decreases |ws|
  {
    if ws != [] {
      SignalsKeepCounters(ws[1..], ws'[1..]);
      if i :| 0 <= i < |ws| && ws[i].Waiting? && ws'[i].Signalled? {
        assert i > 0 ==> ws[1..][i - 1] == ws[i] && ws'[1..][i - 1] == ws'[i];
      }
    }
  }

  lemma NotifyWorkerCounters(ws: seq<WorkerPhase>, ws': seq<WorkerPhase>)
    requires NotifyWorker(ws, ws')
    ensures Total(ws', Registered) == Total(ws, Registered)
    ensures Total(ws', Idle) == Total(ws, Idle)
    ensures Total(ws', Alert) + Total(ws', Asleep) == Total(ws, Alert) + Total(ws, Asleep)
    ensures Total(ws', Asleep) <= Total(ws, Asleep)
    ensures Total(ws, Asleep) > 0 ==> Total(ws', Asleep) < Total(ws, Asleep)
  {
    SignalsKeepCounters(ws, ws');
    TotalPositive(ws, Asleep);
    if Total(ws, Asleep) > 0 {
      var i :| 0 <= i < |ws| && Asleep(ws[i]) > 0;
      assert ws[i].Waiting?;
    }
  }

  /** Signalling idle_count_ times is enough to wake every sleeper, however signals fall. */
  lemma {:induction false} NotifyWorkersWakesAll(times: nat, ws: seq<WorkerPhase>, ws': seq<WorkerPhase>)
    requires NotifyWorkers(times, ws, ws')
    ensures |ws'| == |ws|
    ensures forall i :: 0 <= i < |ws| ==> ws'[i] == ws[i] || (ws[i].Waiting? && ws'[i].Signalled?)
    ensures Total(ws', Registered) == Total(ws, Registered)
    ensures Total(ws', Idle) == Total(ws, Idle)
    ensures Total(ws, Asleep) <= times ==> Total(ws', Asleep) == 0
    decreases times
  {
    if times > 0 {
      var mid :| NotifyWorker(ws, mid) && NotifyWorkers(times - 1, mid, ws');
      NotifyWorkerCounters(ws, mid);
      NotifyWorkersWakesAll(times - 1, mid, ws');
    }
  }

  lemma NotifyAllCounters(ws: seq<WorkerPhase>)
    ensures var ws' := NotifyAllWorkers(ws);
      && Total(ws', Registered) == Total(ws, Registered)
      && Total(ws', Idle) == Total(ws, Idle)
      && Total(ws', Asleep) == 0
  {
    SignalsKeepCounters(ws, NotifyAllWorkers(ws));
    TotalPositive(NotifyAllWorkers(ws), Asleep);
  }

  lemma AsleepAtMostIdle(ws: seq<WorkerPhase>)
    ensures Total(ws, Asleep) <= Total(ws, Idle)
  {
    TotalMonotone(ws, ws, Asleep, Idle);
  }

  /** Among workers that are all created and none gone, all have registered unless one is still starting. */
  lemma AllRegistered(ws: seq<WorkerPhase>)
    requires forall i :: 0 <= i < |ws| ==> !ws[i].Unborn? && !ws[i].Dead?
    ensures Total(ws, Registered) <= |ws|
    ensures Total(ws, Registered) == |ws| <==> forall i :: 0 <= i < |ws| ==> !ws[i].Starting?
  {
    TotalBound(ws, Registered);
  }

  lemma NoneRegistered(ws: seq<WorkerPhase>)
    requires Total(ws, Registered) == 0
    ensures forall i :: 0 <= i < |ws| ==> Registered(ws[i]) == 0
  {
    TotalPositive(ws, Registered);
  }

  // ----- The invariant is kept ----------------------------------------------------------------------

  lemma InitInv(c: Config)
    ensures Inv(c, InitState(c))
  {
    var ws := InitState(c).workers;
    TotalPositive(ws, Registered);
    TotalPositive(ws, Idle);
    TotalPositive(ws, Asleep);
  }

  lemma PushKeepsInv(c: Config, s: State, expiration: int, clock: int, s': State)
    requires Inv(c, s) && PushStep(s, expiration, clock, s')
    ensures Inv(c, s')
  {
    AsleepAtMostIdle(s.workers);
    if s.idleCount > 0 {
      NotifyWorkerCounters(s.workers, s'.workers);
      KeepAnnouncer(s.workers, s'.workers);
    }
  }

  lemma DropKeepsInv(c: Config, s: State, now: int)
    requires Inv(c, s)
    ensures Inv(c, DropExpired(s, now))
    ensures |DropExpired(s, now).queue| <= |s.queue|
  {
  }

  lemma AddKeepsInv(c: Config, s: State, a: Action, s': State)
    requires Inv(c, s) && a.Add? && AddStep(c, s, a, s')
    ensures Inv(c, s')
  {
    DropKeepsInv(c, s, a.now);
    if s.poolState == Started && !IsFull(c, DropExpired(s, a.now).queue) {
      PushKeepsInv(c, DropExpired(s, a.now), a.expiration, a.clock, s');
    }
  }

  lemma AddResumeKeepsInv(c: Config, s: State, a: Action, s': State)
    requires Inv(c, s) && a.AddResume? && AddResumeStep(c, s, a, s')
    ensures Inv(c, s')
  {
    if !IsFull(c, s.queue) {
      var left := s.(producers := s.producers[a.producer := Outside]);
      PushKeepsInv(c, left, s.producers[a.producer].expiration, a.clock, s');
    }
  }

  lemma KeepAnnouncer(ws: seq<WorkerPhase>, ws': seq<WorkerPhase>)
    requires |ws'| == |ws|
    requires forall i :: 0 <= i < |ws| && ws[i].Announcing? ==> ws'[i].Announcing?
    ensures HasAnnouncer(ws) ==> HasAnnouncer(ws')
  {
    if HasAnnouncer(ws) {
      var i :| 0 <= i < |ws| && ws[i].Announcing?;
      assert ws'[i].Announcing?;
    }
  }

  /** What one turn of the worker loop changes, whichever way it goes. */
  lemma WorkerLoopEffect(c: Config, s: State, a: Action, s': State)
    requires a.WorkerLoop? && WorkerLoopStep(c, s, a, s')
    ensures var w := a.worker;
      && s'.workers == s.workers[w := s'.workers[w]]
      && s'.manager == s.manager && s'.poolState == s.poolState && s'.log.joining == s.log.joining
      && s'.workerMax == s.workerMax && s'.workerCount == s.workerCount
      && s'.idleCount == s.idleCount - Idle(s.workers[w]) + Idle(s'.workers[w])
      && |s'.producers| == |s.producers|
      && (s'.workers[w].Exiting? <==> !IsActive(s))
      && (s'.workers[w].Waiting? <==> IsActive(s) && s.queue == [])
      && (s'.workers[w].Checking? || s'.workers[w].Executing? <==> IsActive(s) && s.queue != [])
      && (if s'.workers[w].Checking? || s'.workers[w].Executing? then |s'.queue| < |s.queue| else s'.queue == s.queue)
  {
  }

  lemma WorkerLoopKeepsInv(c: Config, s: State, a: Action, s': State)
    requires Inv(c, s) && a.WorkerLoop? && WorkerLoopStep(c, s, a, s')
    ensures Inv(c, s')
  {
    WorkerLoopEffect(c, s, a, s');
    WorkerTurnKeepsInv(c, s, a.worker, s');
  }

  /** The same turn, by its effect alone. */
  lemma WorkerTurnKeepsInv(c: Config, s: State, w: nat, s': State)
    requires Inv(c, s) && w < |s.workers| && w < |s'.workers|
    requires s.workers[w].Checking? || s.workers[w].Signalled?
    requires s'.workers == s.workers[w := s'.workers[w]]
    requires s'.manager == s.manager && s'.poolState == s.poolState && s'.log.joining == s.log.joining
    requires s'.workerMax == s.workerMax && s'.workerCount == s.workerCount
    requires s'.idleCount == s.idleCount - Idle(s.workers[w]) + Idle(s'.workers[w])
    requires |s'.producers| == |s.producers|
    requires if !IsActive(s) then s'.workers[w].Exiting? && s'.queue == s.queue
             else if s.queue == [] then s'.workers[w].Waiting? && s'.queue == s.queue
             else (s'.workers[w].Checking? || s'.workers[w].Executing?) && |s'.queue| < |s.queue|
    ensures Inv(c, s')
  {
    SetPhase(s.workers, w, s'.workers[w]);
    KeepAnnouncer(s.workers, s'.workers);
    AllAwakeCounted(s.workers, w);
    if Serving(s.manager) {
      AllRegistered(s.workers);
    }
  }

  /** A worker at the queue is registered, so worker_count_ is positive. */
  lemma AllAwakeCounted(ws: seq<WorkerPhase>, w: nat)
    requires w < |ws| && Registered(ws[w]) == 1
    ensures Total(ws, Registered) > 0
  {
    TotalPositive(ws, Registered);
  }

  lemma RegisterKeepsInv(c: Config, s: State, w: nat, s': State)
    requires Inv(c, s) && RegisterStep(s, w, s')
    ensures Inv(c, s')
  {
    assert s.manager.AddCheck? || s.manager.AddWait?;
    AllRegistered(s.workers);
    SetPhase(s.workers, w, s'.workers[w]);
    assert s'.workers[w].Announcing? || s'.workerCount != s'.workerMax;
  }

  lemma RetireKeepsInv(c: Config, s: State, w: nat, s': State)
    requires Inv(c, s) && RetireStep(s, w, s')
    ensures Inv(c, s')
  {
    AllAwakeCounted(s.workers, w);
    SetPhase(s.workers, w, Dead);
  }

  lemma RemoveWorkersKeepsInv(c: Config, s: State, s': State)
    requires Inv(c, s) && RemoveWorkersStep(s, s')
    ensures Inv(c, s')
  {
    AsleepAtMostIdle(s.workers);
    if s.idleCount < s.manager.value {
      NotifyWorkersWakesAll(s.idleCount, s.workers, s'.workers);
    } else {
      NotifyAllCounters(s.workers);
    }
  }

  lemma StartKeepsInv(c: Config, s: State, s': State)
    requires Inv(c, s) && Next(c, s, Start, s')
    ensures Inv(c, s')
  {
    NotifyAllCounters(s.workers);
    if s.poolState == Uninitialized {
      KeepAnnouncer(s.workers, s'.workers);
    }
  }

  lemma AddWorkersKeepsInv(c: Config, s: State, s': State)
    requires Inv(c, s) && Next(c, s, AddWorkers, s')
    ensures Inv(c, s')
  {
    TotalPositive(s.workers, Registered);
    TotalPositive(s.workers, Idle);
    TotalPositive(s'.workers, Registered);
    TotalPositive(s'.workers, Idle);
    TotalPositive(s'.workers, Asleep);
  }

  /** The manager moves on; nothing else changes but, perhaps, the pool's state. */
  lemma ManagerKeepsInv(c: Config, s: State, a: Action, s': State)
    requires Inv(c, s) && Next(c, s, a, s')
    requires a.StopRequest? || a.JoinTest? || a.MarkStopped? || a.SpuriousManager?
    ensures Inv(c, s')
  {
  }

  lemma CountingKeepsInv(c: Config, s: State, a: Action, s': State)
    requires Inv(c, s) && Next(c, s, a, s')
    requires a.AddTest? || a.ReadWorkerCount?
    ensures Inv(c, s')
  {
    AllRegistered(s.workers);
  }

  lemma AnnounceKeepsInv(c: Config, s: State, w: nat, s': State)
    requires Inv(c, s) && Next(c, s, Announce(w), s')
    ensures Inv(c, s')
  {
    SetPhase(s.workers, w, Checking);
  }

  lemma FinishKeepsInv(c: Config, s: State, w: nat, s': State)
    requires Inv(c, s) && Next(c, s, FinishTask(w), s')
    ensures Inv(c, s')
  {
    SetPhase(s.workers, w, Checking);
    KeepAnnouncer(s.workers, s'.workers);
  }

  lemma SpuriousKeepsInv(c: Config, s: State, w: nat, s': State)
    requires Inv(c, s) && Next(c, s, SpuriousWorker(w), s')
    ensures Inv(c, s')
  {
    SetPhase(s.workers, w, Signalled);
    KeepAnnouncer(s.workers, s'.workers);
  }

  lemma ProducerStepKeepsInv(c: Config, s: State, a: Action, s': State)
    requires Inv(c, s) && Next(c, s, a, s')
    requires a.AddTimeout? || a.RemoveNextPending? || a.SpuriousProducer?
    ensures Inv(c, s')
  {
  }

  lemma StepKeepsInv(c: Config, s: State, a: Action, s': State)
    requires Inv(c, s) && Next(c, s, a, s')
    ensures Inv(c, s')
  {
    match a
    case Start => StartKeepsInv(c, s, s');
    case AddWorkers => AddWorkersKeepsInv(c, s, s');
    case AddTest => CountingKeepsInv(c, s, a, s');
    case ReadWorkerCount => CountingKeepsInv(c, s, a, s');
    case Register(w) => RegisterKeepsInv(c, s, w, s');
    case Announce(w) => AnnounceKeepsInv(c, s, w, s');
    case WorkerLoop(_, _) => WorkerLoopKeepsInv(c, s, a, s');
    case FinishTask(w) => FinishKeepsInv(c, s, w, s');
    case Retire(w) => RetireKeepsInv(c, s, w, s');
    case Add(_, _, _, _, _, _) => AddKeepsInv(c, s, a, s');
    case AddResume(_, _) => AddResumeKeepsInv(c, s, a, s');
    case RemoveWorkers => RemoveWorkersKeepsInv(c, s, s');
    case SpuriousWorker(w) => SpuriousKeepsInv(c, s, w, s');
    case AddTimeout(_) => ProducerStepKeepsInv(c, s, a, s');
    case RemoveNextPending => ProducerStepKeepsInv(c, s, a, s');
    case SpuriousProducer(_) => ProducerStepKeepsInv(c, s, a, s');
    case _ => ManagerKeepsInv(c, s, a, s');
  }

  lemma {:induction false} RunKeepsInv(c: Config, actions: seq<Action>, states: seq<State>, n: nat)
    requires IsRun(c, actions, states) && n < |states|
    ensures Inv(c, states[n])
  {
    if n == 0 {
      InitInv(c);
    } else {
      RunKeepsInv(c, actions, states, n - 1);
      StepKeepsInv(c, states[n - 1], actions[n - 1], states[n]);
    }
  }

  /** No lost wake-up: in every reachable STARTED state with its workers added, if a worker sleeps unsignalled then
      the workers that are signalled or awake and not executing are at least as many as the pending tasks; so a
      non-empty queue always has a worker that runs a task or will look at it. */
  lemma WakeupsAreNeverLost(c: Config, actions: seq<Action>, states: seq<State>, n: nat)
    requires IsRun(c, actions, states) && n < |states|
    requires states[n].poolState == Started && !states[n].manager.Created?
    ensures (exists i :: 0 <= i < |states[n].workers| && states[n].workers[i].Waiting?) ==>
              |states[n].queue| <= Total(states[n].workers, Alert)
    ensures states[n].queue != [] && c.workerTotal > 0 ==>
              exists i :: 0 <= i < |states[n].workers| && (states[n].workers[i].Executing? || Alert(states[n].workers[i]) > 0)
  {
    var s := states[n];
    RunKeepsInv(c, actions, states, n);
    TotalPositive(s.workers, Asleep);
    TotalPositive(s.workers, Alert);
    if i :| 0 <= i < |s.workers| && s.workers[i].Waiting? {
      assert Asleep(s.workers[i]) > 0;
    }
    if s.queue != [] && c.workerTotal > 0 {
      assert s.workers[0].Executing? || s.workers[0].Waiting? || Alert(s.workers[0]) > 0;
    }
  }
}
