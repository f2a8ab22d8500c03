/** What the thread pool promises over whole runs: tasks are conserved, none is started after it expired, and
    Join drains. */
module ThreadPoolTheorems {
  import opened ThreadPool
  import opened ThreadPoolSafety

  // ----- Conservation -------------------------------------------------------------------------------

  ghost function HeldBy(p: WorkerPhase): multiset<Task> {
    if p.Executing? then multiset{p.task} else multiset{}
  }

  /** The tasks the workers are running. */
  ghost function Held(ws: seq<WorkerPhase>): multiset<Task> {
    if ws == [] then multiset{} else HeldBy(ws[0]) + Held(ws[1..])
  }

  lemma HeldHead(ws: seq<WorkerPhase>)
    requires ws != []
    ensures Held(ws) == HeldBy(ws[0]) + Held(ws[1..])
  {
  }

  /** Swapping what two sums differ in. */
  lemma Exchange(first: multiset<Task>, a: multiset<Task>, b: multiset<Task>, x: multiset<Task>, y: multiset<Task>)
    requires a + x == b + y
    ensures first + a + x == first + b + y
  {
    assert first + a + x == first + (a + x) && first + b + y == first + (b + y);
  }

  lemma Commute(first: multiset<Task>, rest: multiset<Task>, other: multiset<Task>)
    ensures other + rest + first == first + rest + other
  {
  }

  lemma {:induction false} HeldUpdate(ws: seq<WorkerPhase>, w: nat, x: WorkerPhase)
    requires w < |ws|
    ensures Held(ws[w := x]) + HeldBy(ws[w]) == Held(ws) + HeldBy(x)
    decreases |ws|
  {
    hide Held, HeldBy;
    var ws' := ws[w := x];
    HeldHead(ws);
    HeldHead(ws');
    if w == 0 {
      assert ws'[1..] == ws[1..];
      Commute(HeldBy(ws[0]), Held(ws[1..]), HeldBy(x));
    } else {
      HeldUpdate(ws[1..], w - 1, x);
      assert ws'[1..] == ws[1..][w - 1 := x];
      Exchange(HeldBy(ws[0]), Held(ws'[1..]), Held(ws[1..]), HeldBy(ws[w]), HeldBy(x));
    }
  }

  lemma HeldMoves(ws: seq<WorkerPhase>, w: nat, x: WorkerPhase)
    requires w < |ws|
    ensures !ws[w].Executing? ==> Held(ws[w := x]) == Held(ws) + HeldBy(x)
    ensures !x.Executing? ==> Held(ws[w := x]) + HeldBy(ws[w]) == Held(ws)
    ensures !ws[w].Executing? && !x.Executing? ==> Held(ws[w := x]) == Held(ws)
  {
    HeldUpdate(ws, w, x);
    var before, after := Held(ws), Held(ws[w := x]);
    if !ws[w].Executing? {
      assert after == after + HeldBy(ws[w]);
    }
    if !x.Executing? {
      assert before == before + HeldBy(x);
    }
  }

  lemma {:induction false} HeldSame(ws: seq<WorkerPhase>, ws': seq<WorkerPhase>)
    requires |ws| == |ws'|
    requires forall i :: 0 <= i < |ws| ==> HeldBy(ws[i]) == HeldBy(ws'[i])
    ensures Held(ws) == Held(ws')
    decreases |ws|
  {
    if ws != [] {
      HeldSame(ws[1..], ws'[1..]);
    }
  }

  ghost predicate Conserved(c: Config, s: State) {
    && s.log.removed + s.queue == s.log.accepted
    && (forall i :: 0 <= i < |s.log.accepted| ==> s.log.accepted[i].id == i)
    && multiset(s.log.removed) == multiset(s.log.taken) + multiset(s.log.expired) + multiset(s.log.handedBack)
    && multiset(s.log.taken) == multiset(s.log.finished) + Held(s.workers)
    && (c.limit > 0 ==> |s.queue| <= c.limit)
  }

  lemma DropConserves(c: Config, s: State, now: int)
    requires Conserved(c, s)
    ensures Conserved(c, DropExpired(s, now))
  {
    var n := ExpiredRun(s.queue, now);
    assert s.queue == s.queue[..n] + s.queue[n..];
    assert multiset(s.log.removed + s.queue[..n]) == multiset(s.log.removed) + multiset(s.queue[..n]);
    assert multiset(s.log.expired + s.queue[..n]) == multiset(s.log.expired) + multiset(s.queue[..n]);
    assert s.log.removed + s.queue[..n] + s.queue[n..] == s.log.removed + s.queue;
  }

  /** Steps that leave the queue, the log and the running tasks alone. */
  lemma ConservedFrame(c: Config, s: State, s': State)
    requires Conserved(c, s) && s'.log == s.log && s'.queue == s.queue && Held(s'.workers) == Held(s.workers)
    ensures Conserved(c, s')
  {
  }

  lemma EnqueueConserves(c: Config, s: State, t: Task)
    requires Conserved(c, s) && !IsFull(c, s.queue) && t.id == |s.log.accepted|
    ensures Conserved(c, Enqueue(s, t))
  {
    assert s.log.removed + (s.queue + [t]) == s.log.accepted + [t];
  }

  lemma PushConserves(c: Config, s: State, expiration: int, clock: int, s': State)
    requires Conserved(c, s) && !IsFull(c, s.queue) && PushStep(s, expiration, clock, s')
    ensures Conserved(c, s')
  {
    var t := MakeTask(s, expiration, clock);
    EnqueueConserves(c, s, t);
    HeldSame(s.workers, s'.workers);
    ConservedFrame(c, Enqueue(s, t), s');
  }

  lemma PopConserves(s: State)
    requires s.queue != []
    ensures PopFront(s).log.removed + PopFront(s).queue == s.log.removed + s.queue
    ensures multiset(PopFront(s).log.removed) == multiset(s.log.removed) + multiset{s.queue[0]}
  {
    assert s.queue == [s.queue[0]] + s.queue[1..];
  }

  /** A worker that pops the front task and starts it moves it from pending to held. */
  lemma StartConserves(c: Config, s: State, w: nat)
    requires Conserved(c, s) && s.queue != [] && w < |s.workers| && !s.workers[w].Executing?
    ensures Conserved(c, StartFront(s, w))
  {
    var t := s.queue[0];
    PopConserves(s);
    HeldMoves(s.workers, w, Executing(t));
    var taken := s.log.taken + [t];
    assert multiset(taken) == multiset(s.log.taken) + multiset{t};
    assert multiset(taken) == multiset(s.log.finished) + (Held(s.workers) + multiset{t});
    assert multiset(PopFront(s).log.removed) == multiset(taken) + multiset(s.log.expired) + multiset(s.log.handedBack);
  }

  lemma TakeConserves(c: Config, s: State, w: nat, now: int)
    requires Conserved(c, s) && w < |s.workers| && !s.workers[w].Executing?
    ensures Conserved(c, TakeTask(s, w, now))
  {
    var swept := DropExpired(s, now);
    DropConserves(c, s, now);
    if swept.queue == [] {
      HeldMoves(s.workers, w, Checking);
    } else {
      PopConserves(swept);
      StartConserves(c, swept, w);
    }
  }

  lemma WorkerLoopConserves(c: Config, s: State, a: Action, s': State)
    requires Conserved(c, s) && a.WorkerLoop? && WorkerLoopStep(c, s, a, s')
    ensures Conserved(c, s')
  {
    if IsActive(s) && s.queue != [] {
      TakeConserves(c, s, a.worker, a.now);
    } else {
      HeldMoves(s.workers, a.worker, s'.workers[a.worker]);
    }
  }

  lemma AddConserves(c: Config, s: State, a: Action, s': State)
    requires Conserved(c, s) && Next(c, s, a, s')
    requires a.Add? || a.AddResume?
    ensures Conserved(c, s')
  {
    if a.Add? {
      if s.poolState == Started {
        DropConserves(c, s, a.now);
        if !IsFull(c, DropExpired(s, a.now).queue) {
          PushConserves(c, DropExpired(s, a.now), a.expiration, a.clock, s');
        }
      }
    } else if !IsFull(c, s.queue) {
      var left := s.(producers := s.producers[a.producer := Outside]);
      PushConserves(c, left, s.producers[a.producer].expiration, a.clock, s');
    }
  }

  /** Steps that move a worker that holds nothing to another phase in which it holds nothing. */
  lemma PhaseStepConserves(c: Config, s: State, a: Action, s': State)
    requires Conserved(c, s) && Next(c, s, a, s')
    requires a.Register? || a.Announce? || a.Retire? || a.SpuriousWorker?
    ensures Conserved(c, s')
  {
    HeldMoves(s.workers, a.worker, s'.workers[a.worker]);
    ConservedFrame(c, s, s');
  }

  lemma FinishConserves(c: Config, s: State, w: nat, s': State)
    requires Conserved(c, s) && Next(c, s, FinishTask(w), s')
    ensures Conserved(c, s')
  {
    HeldMoves(s.workers, w, Checking);
    var t := s.workers[w].task;
    assert Held(s'.workers) + multiset{t} == Held(s.workers);
    assert multiset(s'.log.finished) == multiset(s.log.finished) + multiset{t};
    assert multiset(s.log.taken) == multiset(s.log.finished) + (Held(s'.workers) + multiset{t});
  }

  /** Steps that touch all the workers at once: none was running a task, or only signals fell. */
  lemma StartConserved(c: Config, s: State, s': State)
    requires Conserved(c, s) && Next(c, s, Start, s')
    ensures Conserved(c, s')
  {
    if s' != s {
      HeldSame(s.workers, s'.workers);
      ConservedFrame(c, s, s');
    }
  }

  lemma AddWorkersConserves(c: Config, s: State, s': State)
    requires Inv(c, s) && Conserved(c, s) && Next(c, s, AddWorkers, s')
    ensures Conserved(c, s')
  {
    HeldSame(s.workers, s'.workers);
    ConservedFrame(c, s, s');
  }

  lemma RemoveWorkersConserves(c: Config, s: State, s': State)
    requires Inv(c, s) && Conserved(c, s) && RemoveWorkersStep(s, s')
    ensures Conserved(c, s')
  {
    if s.idleCount < s.manager.value {
      NotifyWorkersWakesAll(s.idleCount, s.workers, s'.workers);
    }
    HeldSame(s.workers, s'.workers);
    ConservedFrame(c, s, s');
  }

  lemma StepConserves(c: Config, s: State, a: Action, s': State)
    requires Inv(c, s) && Conserved(c, s) && Next(c, s, a, s')
    ensures Conserved(c, s')
  {
    if a.Start? {
      StartConserved(c, s, s');
    } else if a.AddWorkers? {
      AddWorkersConserves(c, s, s');
    } else if a.RemoveWorkers? {
      RemoveWorkersConserves(c, s, s');
    } else if a.WorkerLoop? {
      WorkerLoopConserves(c, s, a, s');
    } else if a.Add? || a.AddResume? {
      AddConserves(c, s, a, s');
    } else if a.FinishTask? {
      FinishConserves(c, s, a.worker, s');
    } else if a.Register? || a.Announce? || a.Retire? || a.SpuriousWorker? {
      PhaseStepConserves(c, s, a, s');
    } else if a.RemoveNextPending? && s' != s {
      PopConserves(s);
      assert multiset(s'.log.handedBack) == multiset(s.log.handedBack) + multiset{s.queue[0]};
    }
  }

  lemma {:induction false} RunConserves(c: Config, actions: seq<Action>, states: seq<State>, n: nat)
    requires IsRun(c, actions, states) && n < |states|
    ensures Inv(c, states[n]) && Conserved(c, states[n])
  {
    if n == 0 {
      InitInv(c);
      NoneHeld(states[0].workers);
    } else {
      RunConserves(c, actions, states, n - 1);
      StepKeepsInv(c, states[n - 1], actions[n - 1], states[n]);
      StepConserves(c, states[n - 1], actions[n - 1], states[n]);
    }
  }

  lemma {:induction false} NoneHeld(ws: seq<WorkerPhase>)
    requires forall i :: 0 <= i < |ws| ==> !ws[i].Executing?
    ensures Held(ws) == multiset{}
    decreases |ws|
  {
    if ws != [] {
      NoneHeld(ws[1..]);
    }
  }

  /** How many times a task is anywhere: pending, held by a worker, finished, expired or handed back. */
  ghost function Places(s: State, t: Task): nat {
    multiset(s.queue)[t] + Held(s.workers)[t] + multiset(s.log.finished)[t] + multiset(s.log.expired)[t]
    + multiset(s.log.handedBack)[t]
  }

  lemma {:induction false} CountDistinct(ts: seq<Task>, base: nat, t: Task)
    requires forall i :: 0 <= i < |ts| ==> ts[i].id == base + i
    ensures multiset(ts)[t] == if t in ts then 1 else 0
    decreases |ts|
  {
    if ts != [] {
      CountDistinct(ts[1..], base + 1, t);
      assert ts == [ts[0]] + ts[1..];
    }
  }

  /** A sequence within a multiset that has each task at most once repeats nothing. */
  lemma NoRepeats(ts: seq<Task>)
    requires forall t :: multiset(ts)[t] <= 1
    ensures forall i, j :: 0 <= i < j < |ts| ==> ts[i] != ts[j]
  {
    forall i, j | 0 <= i < j < |ts|
      ensures ts[i] != ts[j]
    {
      assert ts == ts[..j] + [ts[j]] + ts[j + 1..];
      assert multiset(ts) == multiset(ts[..j]) + multiset{ts[j]} + multiset(ts[j + 1..]);
      assert multiset(ts[..j])[ts[..j][i]] > 0;
      assert multiset{ts[j]}[ts[j]] == 1;
      assert multiset(ts)[ts[j]] == multiset(ts[..j])[ts[j]] + 1 + multiset(ts[j + 1..])[ts[j]];
    }
  }

  lemma PlacesOfTask(c: Config, s: State, t: Task)
    requires Conserved(c, s)
    ensures Places(s, t) == if t in s.log.accepted then 1 else 0
    ensures multiset(s.log.taken)[t] <= 1
  {
    CountDistinct(s.log.accepted, 0, t);
    var off, on := multiset(s.log.removed), multiset(s.queue);
    assert multiset(s.log.accepted) == off + on;
    assert off[t] == multiset(s.log.taken)[t] + multiset(s.log.expired)[t] + multiset(s.log.handedBack)[t];
    assert multiset(s.log.taken)[t] == multiset(s.log.finished)[t] + Held(s.workers)[t];
  }

  /** In every reachable state each accepted task is in exactly one place, once, and no other task is anywhere;
      the queue is first-in first-out and within its limit; no runnable is started twice. */
  lemma TasksAreConserved(c: Config, actions: seq<Action>, states: seq<State>, n: nat)
    requires IsRun(c, actions, states) && n < |states|
    ensures forall t :: Places(states[n], t) == if t in states[n].log.accepted then 1 else 0
    ensures states[n].log.removed + states[n].queue == states[n].log.accepted
    ensures forall i, j :: 0 <= i < j < |states[n].log.taken| ==> states[n].log.taken[i] != states[n].log.taken[j]
    ensures c.limit > 0 ==> |states[n].queue| <= c.limit
  {
    var s := states[n];
    RunConserves(c, actions, states, n);
    forall t
      ensures Places(s, t) == if t in s.log.accepted then 1 else 0
      ensures multiset(s.log.taken)[t] <= 1
    {
      PlacesOfTask(c, s, t);
    }
    NoRepeats(s.log.taken);
  }

  /** A worker never starts a task that had expired at the clock reading of that critical section. */
  lemma NeverStartsExpired(c: Config, s: State, a: Action, s': State)
    requires Next(c, s, a, s') && s'.log.taken != s.log.taken
    ensures a.WorkerLoop? && a.worker < |s'.workers| && s'.workers[a.worker].Executing?
    ensures s'.log.taken == s.log.taken + [s'.workers[a.worker].task]
    ensures !IsExpired(s'.workers[a.worker].task, a.now)
    ensures forall t :: t in s.queue && t !in s'.queue && t != s'.workers[a.worker].task ==> IsExpired(t, a.now)
  {
    var n := ExpiredRun(s.queue, a.now);
    assert s'.queue == s.queue[n + 1..];
  }

  // ----- Join ---------------------------------------------------------------------------------------

  predicate BeforeStop(m: ManagerPhase) {
    m.Created? || m.AddCheck? || m.AddWait? || m.Ready?
  }

  /** Once a worker has left while joining, everything accepted before the request is off the queue. */
  ghost predicate Drained(s: State) {
    && (BeforeStop(s.manager) ==> !s.log.joining)
    && s.log.acceptedAtStop <= |s.log.accepted|
    && (s.log.joining && (exists i :: 0 <= i < |s.workers| && Gone(s.workers[i])) ==> s.log.acceptedAtStop <= |s.log.removed|)
  }

  lemma StepKeepsDrained(c: Config, s: State, a: Action, s': State)
    requires Inv(c, s) && Conserved(c, s) && Drained(s) && Next(c, s, a, s')
    ensures Drained(s')
  {
    StepLogsGrow(c, s, a, s');
    if s'.log.joining && exists i :: 0 <= i < |s'.workers| && Gone(s'.workers[i]) {
      var i :| 0 <= i < |s'.workers| && Gone(s'.workers[i]);
      if i < |s.workers| && Gone(s.workers[i]) {
      } else {
        NewlyGone(c, s, a, s', i);
      }
    }
  }

  /** The history only grows. */
  lemma StepLogsGrow(c: Config, s: State, a: Action, s': State)
    requires Next(c, s, a, s')
    ensures s.log.accepted <= s'.log.accepted && |s.log.removed| <= |s'.log.removed|
    ensures !a.StopRequest? ==> s'.log.joining == s.log.joining && s'.log.acceptedAtStop == s.log.acceptedAtStop
  {
  }

  /** A worker that leaves while joining has just seen an empty queue. */
  lemma NewlyGone(c: Config, s: State, a: Action, s': State, i: nat)
    requires Inv(c, s) && Conserved(c, s) && Drained(s) && Next(c, s, a, s') && s'.log.joining
    requires i < |s'.workers| && Gone(s'.workers[i]) && !(i < |s.workers| && Gone(s.workers[i]))
    ensures s.log.joining && s.log.acceptedAtStop <= |s.log.removed| && s'.log.acceptedAtStop == s.log.acceptedAtStop
  {
    if a.WorkerLoop? {
      WorkerLoopEffect(c, s, a, s');
      assert !IsActive(s) && s.queue == [];
    } else if a.RemoveWorkers? {
      NobodyGoneAtRemoval(c, s, s', i);
      assert false;
    } else {
      NobodyElseGone(c, s, a, s', i);
      assert false;
    }
  }

  lemma NobodyGoneAtRemoval(c: Config, s: State, s': State, i: nat)
    requires Inv(c, s) && RemoveWorkersStep(s, s') && i < |s'.workers|
    ensures i < |s.workers| && (Gone(s'.workers[i]) ==> Gone(s.workers[i]))
  {
    if s.manager.value <= s.workerMax && s.idleCount < s.manager.value {
      NotifyWorkersWakesAll(s.idleCount, s.workers, s'.workers);
    }
  }

  lemma NobodyElseGone(c: Config, s: State, a: Action, s': State, i: nat)
    requires Inv(c, s) && Next(c, s, a, s') && !a.WorkerLoop? && !a.RemoveWorkers? && i < |s'.workers|
    ensures Gone(s'.workers[i]) ==> i < |s.workers| && Gone(s.workers[i])
  {
    if a.Register? {
      AllRegistered(s.workers);
    }
  }

  lemma {:induction false} RunKeepsDrained(c: Config, actions: seq<Action>, states: seq<State>, n: nat)
    requires IsRun(c, actions, states) && n < |states|
    ensures Drained(states[n])
  {
    if n > 0 {
      RunKeepsDrained(c, actions, states, n - 1);
      RunConserves(c, actions, states, n - 1);
      StepKeepsDrained(c, states[n - 1], actions[n - 1], states[n]);
    }
  }

  /** The stop request is remembered: its kind, and what had been accepted by then. */
  lemma {:induction false} StopIsRemembered(c: Config, actions: seq<Action>, states: seq<State>, k: nat, n: nat)
    requires IsRun(c, actions, states) && k < n < |states| && actions[k].StopRequest?
    ensures states[n].log.joining == actions[k].join
    ensures states[n].log.acceptedAtStop == |states[k].log.accepted| && states[k].log.accepted <= states[n].log.accepted
    ensures !BeforeStop(states[n].manager)
  {
    if n > k + 1 {
      StopIsRemembered(c, actions, states, k, n - 1);
      assert Next(c, states[n - 1], actions[n - 1], states[n]);
      StepLogsGrow(c, states[n - 1], actions[n - 1], states[n]);
      assert states[k].log.accepted <= states[n - 1].log.accepted <= states[n].log.accepted;
    } else {
      assert Next(c, states[k], actions[k], states[n]);
    }
  }

  /** Join drains: when a joined pool with at least one worker is STOPPED, every task accepted before the join
      was requested has run to its end, expired or been handed back; all workers are gone. */
  lemma JoinDrains(c: Config, actions: seq<Action>, states: seq<State>, k: nat, n: nat)
    requires IsRun(c, actions, states) && k < n < |states|
    requires c.workerTotal > 0 && actions[k] == StopRequest(true) && states[n].poolState == Stopped
    ensures forall t :: t in states[k].log.accepted ==>
              && t !in states[n].queue
              && (t in states[n].log.finished || t in states[n].log.expired || t in states[n].log.handedBack)
    ensures forall i :: 0 <= i < |states[n].workers| ==> states[n].workers[i].Dead?
  {
    var s := states[n];
    StopIsRemembered(c, actions, states, k, n);
    RunKeepsDrained(c, actions, states, n);
    RunConserves(c, actions, states, n);
    NoneRegistered(s.workers);
    assert Gone(s.workers[0]);
    NoneHeld(s.workers);
    forall t | t in states[k].log.accepted
      ensures t !in s.queue && (t in s.log.finished || t in s.log.expired || t in s.log.handedBack)
    {
      var i :| 0 <= i < |states[k].log.accepted| && states[k].log.accepted[i] == t;
      assert s.log.accepted[i] == t && i < |s.log.removed| && s.log.removed[i] == t;
      assert t in multiset(s.log.removed);
      assert forall j :: 0 <= j < |s.queue| ==> s.queue[j] == s.log.accepted[|s.log.removed| + j];
    }
  }
}
