/** What each call and each turn of a worker comes to, told by the state of the pool and not by the tests in the code. */
module ThreadPoolOutcomes {
  import opened Totals
  import opened ThreadPool
  import opened ThreadPoolSafety
  import opened ThreadPoolTheorems
  import opened ThreadPoolProgress

  // ----- Workers ------------------------------------------------------------------------------------

  /** Until RemoveWorker has lowered the maximum, every worker goes on; afterwards only while a join has tasks. */
  lemma ActiveWorkers(c: Config, s: State, w: nat)
    requires Inv(c, s) && w < |s.workers| && (s.workers[w].Checking? || s.workers[w].Signalled?)
    ensures IsActive(s) <==> !ShuttingDown(s) || (s.poolState == Joining && s.queue != [])
  {
    AllAwakeCounted(s.workers, w);
    TotalBound(s.workers, Registered);
  }

  /** A turn of a worker: it leaves exactly in a shutdown that is not a join with pending tasks, it sleeps exactly on
      an empty queue before a shutdown, and otherwise it drops the expired tasks at the head and starts the next. */
  lemma WorkerTurn(c: Config, s: State, a: Action, s': State)
    requires Inv(c, s) && a.WorkerLoop? && Next(c, s, a, s')
    ensures a.worker < |s.workers| == |s'.workers|
    ensures var n := ExpiredRun(s.queue, a.now);
      if ShuttingDown(s) && (s.poolState != Joining || s.queue == []) then
        s'.workers[a.worker] == Exiting && s'.queue == s.queue && s'.log == s.log
      else if s.queue == [] then s'.workers[a.worker] == Waiting && s'.queue == [] && s'.log == s.log
      else if n < |s.queue| then
        && s'.workers[a.worker] == Executing(s.queue[n]) && s'.queue == s.queue[n + 1..]
        && s'.log.taken == s.log.taken + [s.queue[n]] && s'.log.expired == s.log.expired + s.queue[..n]
      else
        && s'.workers[a.worker] == Checking && s'.queue == []
        && s'.log.taken == s.log.taken && s'.log.expired == s.log.expired + s.queue
  {
    hide ExpiredRun, Inv;
    ActiveWorkers(c, s, a.worker);
    var n := ExpiredRun(s.queue, a.now);
    assert s.queue[n..] != [] ==> s.queue[n..][0] == s.queue[n] && s.queue[n..][1..] == s.queue[n + 1..];
    assert n == |s.queue| ==> s.queue[..n] == s.queue;
  }

  /** A worker that goes on to the queue wakes a blocked producer exactly when what it leaves there is below a limit. */
  lemma RoomIsSignalled(c: Config, s: State, a: Action, s': State)
    requires Inv(c, s) && a.WorkerLoop? && Next(c, s, a, s')
    ensures |s'.producers| == |s.producers|
    ensures (exists p :: 0 <= p < |s.producers| && s.producers[p].Blocked? && s'.producers[p].Woken?) <==>
            && SomeBlocked(s.producers) && s.queue != [] && (!ShuttingDown(s) || s.poolState == Joining)
            && 0 < c.limit && |s'.queue| < c.limit
    ensures forall p :: 0 <= p < |s.producers| && !s.producers[p].Blocked? ==> s'.producers[p] == s.producers[p]
  {
    hide ExpiredRun, Inv, TakeTask;
    ActiveWorkers(c, s, a.worker);
    TakingKeepsProducers(s, a.worker, a.now);
  }

  lemma TakingKeepsProducers(s: State, w: nat, now: int)
    requires w < |s.workers|
    ensures TakeTask(s, w, now).producers == s.producers
  {
  }

  /** With the worker maximum at 0 a step starts a task if and only if it is a worker's turn in a join and a task is
      left that has not expired. */
  lemma ShutdownStarts(c: Config, s: State, a: Action, s': State)
    requires Inv(c, s) && ShuttingDown(s) && Next(c, s, a, s')
    ensures s'.log.taken != s.log.taken <==>
            a.WorkerLoop? && s.poolState == Joining && ExpiredRun(s.queue, a.now) < |s.queue|
  {
    hide ExpiredRun, Inv;
    if a.WorkerLoop? {
      WorkerTurn(c, s, a, s');
    } else {
      OnlyWorkersStart(c, s, a, s');
    }
  }

  lemma OnlyWorkersStart(c: Config, s: State, a: Action, s': State)
    requires Next(c, s, a, s') && !a.WorkerLoop?
    ensures s'.log.taken == s.log.taken
  {
  }

  // ----- Stop ---------------------------------------------------------------------------------------

  /** A plain stop: nothing leaves the queue once the worker maximum is 0. */
  lemma StopStep(c: Config, s: State, a: Action, s': State)
    requires Inv(c, s) && ShuttingDown(s) && !s.log.joining && Next(c, s, a, s')
    ensures s'.log.taken == s.log.taken && s.queue <= s'.queue
  {
    hide ExpiredRun, Inv;
    NotAJoin(c, s);
    ShutdownStarts(c, s, a, s');
    if a.WorkerLoop? {
      WorkerTurn(c, s, a, s');
    } else {
      QueueStays(c, s, a, s');
    }
  }

  lemma NotAJoin(c: Config, s: State)
    requires Inv(c, s) && ShuttingDown(s) && !s.log.joining
    ensures s.poolState == Stopping || s.poolState == Stopped
  {
  }

  lemma QueueStays(c: Config, s: State, a: Action, s': State)
    requires Next(c, s, a, s') && !a.WorkerLoop? && s.poolState != Started
    ensures s.queue <= s'.queue
  {
  }

  /** Stop aborts what has not been started: once the worker maximum is 0 no task is started any more, and every
      pending one stays pending, to the end of the run. */
  lemma {:induction false} StopStartsNothing(c: Config, actions: seq<Action>, states: seq<State>, k: nat, i: nat, n: nat)
    requires IsRun(c, actions, states) && k < i <= n < |states|
    requires actions[k] == StopRequest(false) && ShuttingDown(states[i])
    ensures states[n].log.taken == states[i].log.taken && states[i].queue <= states[n].queue && ShuttingDown(states[n])
    decreases n
  {
    hide Next, Inv;
    if i < n {
      StopStartsNothing(c, actions, states, k, i, n - 1);
      RunKeepsInv(c, actions, states, n - 1);
      StopIsRemembered(c, actions, states, k, n - 1);
      StopStep(c, states[n - 1], actions[n - 1], states[n]);
      ShutdownStays(c, states[n - 1], actions[n - 1], states[n]);
    }
  }

  // ----- Producers ----------------------------------------------------------------------------------

  /** Add: refused unless STARTED; otherwise expired tasks at the head go, and the new one is accepted exactly when the
      rest leaves room; with no room the caller waits, or is refused if it may not. */
  lemma AddOutcome(c: Config, s: State, a: Action, s': State)
    requires a.Add? && Next(c, s, a, s')
    ensures a.producer < |s.producers| && s.producers[a.producer].Outside?
    ensures s.poolState != Started ==> s' == s
    ensures s.poolState == Started ==>
      var n := ExpiredRun(s.queue, a.now);
      var room := c.limit == 0 || |s.queue| - n < c.limit;
      && s'.log.expired == s.log.expired + s.queue[..n]
      && |s'.log.accepted| == |s.log.accepted| + (if room then 1 else 0)
      && s'.queue == s.queue[n..] + s'.log.accepted[|s.log.accepted|..]
      && s'.producers == if room || !a.mayWait then s.producers
                         else s.producers[a.producer := Blocked(a.timed, a.expiration)]
  {
    hide ExpiredRun;
    if s.poolState == Started {
      var swept := DropExpired(s, a.now);
      if IsFull(c, swept.queue) {
        assert s'.queue == swept.queue + [];
      } else {
        var t := MakeTask(swept, a.expiration, a.clock);
        assert (swept.log.accepted + [t])[|s.log.accepted|..] == [t];
      }
    }
  }

  /** A producer inside Add leaves only with its task accepted, there being room, or because its time limit ran out;
      while it waits its limit and its expiration stay those of the call. */
  lemma ProducerLeaves(c: Config, s: State, a: Action, s': State, p: nat)
    requires Next(c, s, a, s') && p < |s.producers| && !s.producers[p].Outside?
    ensures |s'.producers| == |s.producers|
    ensures s'.producers[p].Outside? ==>
      || (a == AddTimeout(p) && s.producers[p].timed && s'.log.accepted == s.log.accepted)
      || (a.AddResume? && a.producer == p && (c.limit == 0 || |s.queue| < c.limit) && |s'.log.accepted| == |s.log.accepted| + 1)
    ensures !s'.producers[p].Outside? ==>
      s'.producers[p].timed == s.producers[p].timed && s'.producers[p].expiration == s.producers[p].expiration
  {
  }

  /** The expiration counts from the clock of the push, 0 stands for none, and a task accepted with a sum of 0 never
      expires either. */
  lemma TaskExpiry(c: Config, s: State, a: Action, s': State, now: int)
    requires (a.Add? || a.AddResume?) && Next(c, s, a, s') && s'.log.accepted != s.log.accepted
    ensures |s'.log.accepted| == |s.log.accepted| + 1 && s.log.accepted <= s'.log.accepted
    ensures a.AddResume? ==> a.producer < |s.producers| && !s.producers[a.producer].Outside?
    ensures var e := if a.Add? then a.expiration else s.producers[a.producer].expiration;
      IsExpired(s'.log.accepted[|s.log.accepted|], now) <==> e != 0 && a.clock + e != 0 && now - a.clock >= e
  {
    hide ExpiredRun;
  }

  /** RemoveNextPending hands back the oldest pending task of a STARTED pool, and only that. */
  lemma HandsBackOldest(c: Config, s: State, s': State)
    requires Next(c, s, RemoveNextPending, s')
    ensures if s.poolState == Started && s.queue != []
            then s'.log.handedBack == s.log.handedBack + [s.queue[0]] && s'.queue == s.queue[1..]
            else s' == s
  {
  }

  /** What is dropped as expired had expired at the clock of the step. */
  lemma DroppedHadExpired(c: Config, s: State, a: Action, s': State)
    requires Next(c, s, a, s')
    ensures s.log.expired <= s'.log.expired
    ensures s'.log.expired != s.log.expired ==> a.WorkerLoop? || a.Add?
    ensures forall i :: |s.log.expired| <= i < |s'.log.expired| ==> IsExpired(s'.log.expired[i], a.now)
  {
    hide IsExpired;
  }
}
