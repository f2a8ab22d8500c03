/** Runs that show why the thread pool's promises have the conditions they have. All use one worker and room for one
    pending task, with one producer or with two. */
module ThreadPoolLimits {
  import opened ThreadPool
  import opened ThreadPoolProgress

  const TINY := Config(1, 1, 1)
  const PAIR := Config(1, 2, 1)

  const FIRST := Task(0, 0)
  const SECOND := Task(1, 0)
  const THIRD := Task(2, 0)

  function AddCall(p: nat, timed: bool): Action { Add(p, true, timed, 0, 0, 0) }

  /** One more step of a run. */
  lemma Then(c: Config, actions: seq<Action>, states: seq<State>, a: Action, s': State)
      returns (actions': seq<Action>, states': seq<State>)
    requires IsRun(c, actions, states) && Next(c, states[|actions|], a, s')
    ensures IsRun(c, actions', states') && actions' == actions + [a] && states' == states + [s']
  {
    actions', states' := actions + [a], states + [s'];
  }

  /** All producers outside but the first, which waits without a time limit. */
  function FirstBlocked(c: Config): seq<ProducerPhase>
    requires c.producerTotal > 0
  {
    seq(c.producerTotal, i => Outside)[0 := Blocked(false, 0)]
  }

  /** Start, AddWorker, one task running, one pending, one producer blocked on a third. */
  lemma BusyRun(c: Config) returns (actions: seq<Action>, states: seq<State>)
    requires c.workerTotal == c.limit == 1 && c.producerTotal > 0
    ensures IsRun(c, actions, states) && |actions| == 9
    ensures forall i :: 0 <= i < |actions| ==> !actions[i].RemoveNextPending?
    ensures states[9] == State(Started, 1, 1, 0, [SECOND], [Executing(FIRST)], FirstBlocked(c), Ready,
                               Log([FIRST, SECOND], [FIRST], [FIRST], [], [], [], false, 0))
  {
    var s7;
    actions, states, s7 := FirstTaken(c);
    var s8 := s7.(queue := [SECOND], log := s7.log.(accepted := [FIRST, SECOND]));
    AddPushes(c, s7, SECOND, s8);
    actions, states := Then(c, actions, states, AddCall(0, false), s8);
    var s9 := s8.(producers := FirstBlocked(c));
    AddBlocks(c, s8, 0, false, s9);
    actions, states := Then(c, actions, states, AddCall(0, false), s9);
  }

  /** Start, AddWorker, one task running. */
  lemma FirstTaken(c: Config) returns (actions: seq<Action>, states: seq<State>, s7: State)
    requires c.workerTotal == c.limit == 1 && c.producerTotal > 0
    ensures IsRun(c, actions, states) && |actions| == 7 && states[7] == s7
    ensures forall i :: 0 <= i < |actions| ==> !actions[i].RemoveNextPending?
    ensures s7 == State(Started, 1, 1, 0, [], [Executing(FIRST)], seq(c.producerTotal, i => Outside), Ready,
                        Log([FIRST], [FIRST], [FIRST], [], [], [], false, 0))
  {
    var s5;
    actions, states, s5 := IdleRun(c);
    var s6 := s5.(queue := [FIRST], log := s5.log.(accepted := [FIRST]));
    AddPushes(c, s5, FIRST, s6);
    actions, states := Then(c, actions, states, AddCall(0, false), s6);
    s7 := s6.(queue := [], workers := [Executing(FIRST)], log := s6.log.(removed := [FIRST], taken := [FIRST]));
    LoopTakes(c, s6, FIRST, s7);
    actions, states := Then(c, actions, states, WorkerLoop(0, 0), s7);
  }

  /** Start and AddWorker. */
  lemma IdleRun(c: Config) returns (actions: seq<Action>, states: seq<State>, s5: State)
    requires c.workerTotal == c.limit == 1 && c.producerTotal > 0
    ensures IsRun(c, actions, states) && |actions| == 5 && states[5] == s5
    ensures forall i :: 0 <= i < |actions| ==> !actions[i].RemoveNextPending?
    ensures s5 == State(Started, 1, 1, 0, [], [Checking], seq(c.producerTotal, i => Outside), Ready,
                        Log([], [], [], [], [], [], false, 0))
  {
    var s0 := InitState(c);
    actions, states := [], [s0];
    var s1 := s0.(poolState := Started);
    assert NotifyAllWorkers(s0.workers) == s0.workers;
    actions, states := Then(c, actions, states, Start, s1);
    var s2 := s1.(manager := AddCheck, workerMax := 1, workers := [Starting]);
    assert seq(1, i => Starting) == [Starting];
    actions, states := Then(c, actions, states, AddWorkers, s2);
    var s3 := s2.(workerCount := 1, workers := [Announcing]);
    actions, states := Then(c, actions, states, Register(0), s3);
    var s4 := s3.(workers := [Checking]);
    actions, states := Then(c, actions, states, Announce(0), s4);
    s5 := s4.(manager := Ready);
    actions, states := Then(c, actions, states, AddTest, s5);
  }

  lemma AddPushes(c: Config, s: State, t: Task, s': State)
    requires c.limit == 1 && s.poolState == Started && s.queue == [] && s.idleCount == 0
    requires |s.producers| > 0 && s.producers[0].Outside?
    requires t == Task(|s.log.accepted|, 0) && s' == s.(queue := [t], log := s.log.(accepted := s.log.accepted + [t]))
    ensures Next(c, s, AddCall(0, false), s')
  {
    assert DropExpired(s, 0) == s;
    assert PushStep(s, 0, 0, s');
  }

  lemma AddBlocks(c: Config, s: State, p: nat, timed: bool, s': State)
    requires c.limit == 1 && s.poolState == Started && |s.queue| == 1 && s.queue[0].expireTime == 0
    requires p < |s.producers| && s.producers[p].Outside? && s' == s.(producers := s.producers[p := Blocked(timed, 0)])
    ensures Next(c, s, AddCall(p, timed), s')
  {
    assert DropExpired(s, 0) == s;
  }

  lemma LoopTakes(c: Config, s: State, t: Task, s': State)
    requires c.limit == 1 && |s.workers| == 1 && s.workers[0].Checking?
    requires s.queue == [t] && t.expireTime == 0 && IsActive(s) && NotifyProducer(s.producers, s'.producers)
    requires s' == s.(queue := [], workers := [Executing(t)], producers := s'.producers,
                      log := s.log.(removed := s.log.removed + [t], taken := s.log.taken + [t]))
    ensures Next(c, s, WorkerLoop(0, 0), s')
  {
    TakesSoleTask(s, t);
    assert WorkerLoopStep(c, s, WorkerLoop(0, 0), s');
  }

  lemma TakesSoleTask(s: State, t: Task)
    requires |s.workers| == 1 && s.queue == [t] && t.expireTime == 0
    ensures TakeTask(s, 0, 0) == s.(queue := [], workers := [Executing(t)],
                                    log := s.log.(removed := s.log.removed + [t], taken := s.log.taken + [t]))
  {
    assert DropExpired(s, 0) == s;
    assert s.workers[0 := Executing(t)] == [Executing(t)];
  }

  lemma SleepingPoolIsQuiescent(c: Config, s: State)
    requires s.workers == [Waiting] && s.manager == Ready
    requires forall p :: 0 <= p < |s.producers| ==> !s.producers[p].Woken?
    ensures Quiescent(c, s)
  {
    forall a | Internal(a)
      ensures !Enabled(c, s, a)
    {
    }
  }

  /** A producer with a time limit takes the only signal, and its time runs out before it has the mutex back; the
      other producer stays blocked on an empty queue with nothing left to move. The second step that strands. */
  lemma TimedOutSignalStrandsProducer() returns (actions: seq<Action>, states: seq<State>, s: State)
    ensures IsRun(PAIR, actions, states) && states[|actions|] == s
    ensures forall i :: 0 <= i < |actions| ==> !actions[i].RemoveNextPending?
    ensures s.poolState == Started && Quiescent(PAIR, s) && s.queue == [] && s.producers == [Blocked(false, 0), Outside]
  {
    actions, states, s := TimedRun();
    s := s.(producers := [Blocked(false, 0), Outside]);
    actions, states := Then(PAIR, actions, states, AddTimeout(1), s);
    s := s.(workers := [Checking], log := s.log.(finished := [FIRST, SECOND]));
    actions, states := Then(PAIR, actions, states, FinishTask(0), s);
    s := s.(workers := [Waiting], idleCount := 1);
    actions, states := Then(PAIR, actions, states, WorkerLoop(0, 0), s);
    SleepingPoolIsQuiescent(PAIR, s);
  }

  /** Up to the point where the worker has taken the last task and signalled the timed producer. */
  lemma TimedRun() returns (actions: seq<Action>, states: seq<State>, s: State)
    ensures IsRun(PAIR, actions, states) && |actions| == 12 && states[12] == s
    ensures forall i :: 0 <= i < |actions| ==> !actions[i].RemoveNextPending?
    ensures s == State(Started, 1, 1, 0, [], [Executing(SECOND)], [Blocked(false, 0), Woken(true, 0)], Ready,
                       Log([FIRST, SECOND], [FIRST, SECOND], [FIRST, SECOND], [FIRST], [], [], false, 0))
  {
    var busy;
    actions, states, busy := BothBlocked();
    s := busy.(workers := [Checking], log := busy.log.(finished := [FIRST]));
    actions, states := Then(PAIR, actions, states, FinishTask(0), s);
    var ps := [Blocked(false, 0), Woken(true, 0)];
    assert ps[1].Woken? && NotifyProducer(s.producers, ps);
    var s' := s.(queue := [], workers := [Executing(SECOND)], producers := ps,
                 log := s.log.(removed := [FIRST, SECOND], taken := [FIRST, SECOND]));
    LoopTakes(PAIR, s, SECOND, s');
    actions, states := Then(PAIR, actions, states, WorkerLoop(0, 0), s');
    s := s';
  }

  lemma BothBlocked() returns (actions: seq<Action>, states: seq<State>, s: State)
    ensures IsRun(PAIR, actions, states) && |actions| == 10 && states[10] == s
    ensures forall i :: 0 <= i < |actions| ==> !actions[i].RemoveNextPending?
    ensures s == State(Started, 1, 1, 0, [SECOND], [Executing(FIRST)], [Blocked(false, 0), Blocked(true, 0)], Ready,
                       Log([FIRST, SECOND], [FIRST], [FIRST], [], [], [], false, 0))
  {
    actions, states := BusyRun(PAIR);
    s := states[9].(producers := [Blocked(false, 0), Blocked(true, 0)]);
    AddBlocks(PAIR, states[9], 1, true, s);
    actions, states := Then(PAIR, actions, states, AddCall(1, true), s);
  }

  /** RemoveNextPending does not signal max_monitor_, so a producer can stay blocked on an empty queue with
      nothing left to move; this is the first of the two steps that strand. */
  lemma RemoveNextPendingStrandsProducer() returns (actions: seq<Action>, states: seq<State>, s: State)
    ensures IsRun(TINY, actions, states) && states[|actions|] == s
    ensures s.poolState == Started && Quiescent(TINY, s) && s.queue == [] && s.producers == [Blocked(false, 0)]
  {
    actions, states := BusyRun(TINY);
    s := states[9].(queue := [], log := states[9].log.(removed := [FIRST, SECOND], handedBack := [SECOND]));
    actions, states := Then(TINY, actions, states, RemoveNextPending, s);
    s := s.(workers := [Checking], log := s.log.(finished := [FIRST]));
    actions, states := Then(TINY, actions, states, FinishTask(0), s);
    s := s.(workers := [Waiting], idleCount := 1);
    actions, states := Then(TINY, actions, states, WorkerLoop(0, 0), s);
    SleepingPoolIsQuiescent(TINY, s);
  }

  /** The run of BusyRun, joined, up to the point where the worker maximum is 0. */
  lemma JoinRequestedRun() returns (actions: seq<Action>, states: seq<State>, s: State)
    ensures IsRun(TINY, actions, states) && |actions| == 12 && states[12] == s
    ensures actions[9] == StopRequest(true) && states[9].log.accepted == [FIRST, SECOND]
    ensures s == State(Joining, 0, 1, 0, [SECOND], [Executing(FIRST)], [Blocked(false, 0)], JoinCheck,
                       Log([FIRST, SECOND], [FIRST], [FIRST], [], [], [], true, 2))
  {
    actions, states := BusyRun(TINY);
    s := states[9].(poolState := Joining, manager := ReadCount, log := states[9].log.(joining := true, acceptedAtStop := 2));
    actions, states := Then(TINY, actions, states, StopRequest(true), s);
    s := s.(manager := Shrink(1));
    actions, states := Then(TINY, actions, states, ReadWorkerCount, s);
    assert NotifyWorkers(0, s.workers, s.workers);
    s := s.(manager := JoinCheck, workerMax := 0);
    actions, states := Then(TINY, actions, states, RemoveWorkers, s);
  }

  /** Further, to where the only worker leaves and the producer has been woken. */
  lemma JoinedRun() returns (actions: seq<Action>, states: seq<State>, s: State)
    ensures IsRun(TINY, actions, states) && |actions| == 16 && states[16] == s
    ensures actions[9] == StopRequest(true) && states[9].log.accepted == [FIRST, SECOND]
    ensures s == State(Joining, 0, 1, 0, [], [Exiting], [Woken(false, 0)], JoinCheck,
                       Log([FIRST, SECOND], [FIRST, SECOND], [FIRST, SECOND], [FIRST, SECOND], [], [], true, 2))
  {
    actions, states, s := JoinRequestedRun();
    s := s.(workers := [Checking], log := s.log.(finished := [FIRST]));
    actions, states := Then(TINY, actions, states, FinishTask(0), s);
    var s' := s.(queue := [], workers := [Executing(SECOND)],
                 log := s.log.(removed := [FIRST, SECOND], taken := [FIRST, SECOND]),
                 producers := [Woken(false, 0)]);
    assert NotifyProducer(s.producers, [Woken(false, 0)]) by {
      assert [Woken(false, 0)][0].Woken?;
    }
    LoopTakes(TINY, s, SECOND, s');
    actions, states := Then(TINY, actions, states, WorkerLoop(0, 0), s');
    s := s'.(workers := [Checking], log := s'.log.(finished := [FIRST, SECOND]));
    actions, states := Then(TINY, actions, states, FinishTask(0), s);
    s := s.(workers := [Exiting]);
    actions, states := Then(TINY, actions, states, WorkerLoop(0, 0), s);
  }

  /** A producer that was blocked when the join was requested may push its task after the last worker has seen
      the queue empty; that task is never run: JoinLeavesNothing needs all producers outside. */
  lemma JoinMayStrandLateTask() returns (actions: seq<Action>, states: seq<State>, s: State)
    ensures IsRun(TINY, actions, states) && |actions| > 9 && states[|actions|] == s
    ensures actions[9] == StopRequest(true) && THIRD !in states[9].log.accepted
    ensures s.poolState == Stopped && s.workers == [Dead] && s.queue == [THIRD]
  {
    actions, states, s := JoinedRun();
    var s' := s.(queue := [THIRD], producers := [Outside], log := s.log.(accepted := [FIRST, SECOND, THIRD]));
    assert PushStep(s.(producers := s.producers[0 := Outside]), 0, 0, s');
    actions, states := Then(TINY, actions, states, AddResume(0, 0), s');
    s := s'.(workers := [Dead], workerCount := 0);
    actions, states := Then(TINY, actions, states, Retire(0), s);
    s := s.(manager := SetStopped);
    actions, states := Then(TINY, actions, states, JoinTest, s);
    s := s.(manager := Finished, poolState := Stopped);
    actions, states := Then(TINY, actions, states, MarkStopped, s);
  }
}
