/** The thread pool of threading/thread_manager.cc as a transition system.

    One step is one critical section: what a thread does from taking a mutex until it releases it or
    waits on a monitor. A condition-variable signal wakes at least one thread that is waiting and not
    yet signalled, if there is one, and is lost otherwise; a waiting thread may also wake for no reason.
    The pool is fixed: one AddWorker of all the workers, then at most one full StopImpl. */
module ThreadPool {

  datatype Task = Task(id: nat, expireTime: int)

  /** STARTING is declared in the source and never assigned. */
  datatype PoolState = Uninitialized | Started | Joining | Stopping | Stopped

  datatype WorkerPhase =
    | Unborn                  // AddWorker has not run
    | Starting                // the thread exists and has not registered itself
    | Announcing              // registered as the last one, about to signal worker_monitor_
    | Checking                // about to take mutex_ at the head of the worker loop
    | Waiting                 // waits on monitor_, not signalled
    | Signalled               // woken on monitor_, has not got mutex_ back
    | Executing(task: Task)
    | Exiting                 // left the loop, has not reached its last critical section
    | Dead

  datatype ProducerPhase =
    | Outside
    | Blocked(timed: bool, expiration: int)   // waits on max_monitor_, not signalled
    | Woken(timed: bool, expiration: int)     // woken on max_monitor_, has not got mutex_ back

  /** The thread that calls AddWorker and later StopImpl; the only one that waits on worker_monitor_. */
  datatype ManagerPhase =
    | Created
    | AddCheck | AddWait
    | Ready
    | ReadCount | Shrink(value: int) | Threw
    | JoinCheck | JoinWait
    | SetStopped
    | Finished

  datatype Config = Config(workerTotal: nat, producerTotal: nat, limit: nat)

  /** What has happened so far. */
  datatype Log = Log(
    accepted: seq<Task>,     // tasks pushed by Add, in order
    removed: seq<Task>,      // tasks taken off the queue, in order
    taken: seq<Task>,        // tasks a worker started to run, in order
    finished: seq<Task>,     // tasks whose runnable has returned or thrown
    expired: seq<Task>,      // tasks dropped by RemoveExpiredTasks
    handedBack: seq<Task>,   // tasks returned by RemoveNextPending
    joining: bool,           // the stop request was a Join
    acceptedAtStop: nat)     // how many tasks had been accepted when the stop was requested

  datatype State = State(
    poolState: PoolState,
    workerMax: int,
    workerCount: int,
    idleCount: int,
    queue: seq<Task>,
    workers: seq<WorkerPhase>,
    producers: seq<ProducerPhase>,
    manager: ManagerPhase,
    log: Log)

  function InitState(c: Config): State {
    State(Uninitialized, 0, 0, 0, [], seq(c.workerTotal, i => Unborn), seq(c.producerTotal, i => Outside),
          Created, Log([], [], [], [], [], [], false, 0))
  }

  // ----- Expiry -------------------------------------------------------------------------------------

  predicate IsExpired(t: Task, now: int) {
    t.expireTime != 0 && t.expireTime <= now
  }

  /** How many tasks RemoveExpiredTasks pops. */
  function ExpiredRun(q: seq<Task>, now: int): (n: nat)
    ensures n <= |q|
    ensures forall i :: 0 <= i < n ==> IsExpired(q[i], now)
    ensures n < |q| ==> !IsExpired(q[n], now)
  {
    if q != [] && IsExpired(q[0], now) then 1 + ExpiredRun(q[1..], now) else 0
  }

  /** RemoveExpiredTasks; `clock` is the value TimeUtil::CurrentTime returns, asked for once, or again while it is 0. */
  method RemoveExpiredTasks(tasks: seq<Task>, clock: int) returns (left: seq<Task>, dropped: seq<Task>)
    ensures dropped + left == tasks
    ensures forall i :: 0 <= i < |dropped| ==> IsExpired(dropped[i], clock)
    ensures left != [] ==> !IsExpired(left[0], clock)
    ensures |dropped| == ExpiredRun(tasks, clock)
  {
    left, dropped := tasks, [];
    var now := 0;
    while left != []
      invariant dropped + left == tasks
      invariant forall i :: 0 <= i < |dropped| ==> IsExpired(dropped[i], clock)
      invariant now == 0 || now == clock
      invariant |dropped| + ExpiredRun(left, clock) == ExpiredRun(tasks, clock)
      decreases |left|
    {
      var task := left[0];
      if task.expireTime == 0 {
        break;
      }
      if now == 0 {
        now := clock;
      }
      if task.expireTime > now {
        break;
      }
      dropped := dropped + [task];
      left := left[1..];
    }
  }

  // ----- Condition variables ------------------------------------------------------------------------

  /** Monitor::Notify on monitor_. */
  ghost predicate NotifyWorker(ws: seq<WorkerPhase>, ws': seq<WorkerPhase>) {
    && |ws'| == |ws|
    && (forall i :: 0 <= i < |ws| ==> ws'[i] == ws[i] || (ws[i].Waiting? && ws'[i].Signalled?))
    && ((exists i :: 0 <= i < |ws| && ws[i].Waiting?) ==>
          exists i :: 0 <= i < |ws| && ws[i].Waiting? && ws'[i].Signalled?)
  }

  /** Monitor::Notify on monitor_, `times` times in a row. */
  ghost predicate NotifyWorkers(times: nat, ws: seq<WorkerPhase>, ws': seq<WorkerPhase>)
    decreases times
  {
    if times == 0 then ws' == ws
    else exists mid :: NotifyWorker(ws, mid) && NotifyWorkers(times - 1, mid, ws')
  }

  /** Monitor::NotifyAll on monitor_. */
  function NotifyAllWorkers(ws: seq<WorkerPhase>): (r: seq<WorkerPhase>) {
    seq(|ws|, i requires 0 <= i < |ws| => if ws[i].Waiting? then Signalled else ws[i])
  }

  /** Monitor::Notify on max_monitor_. */
  ghost predicate NotifyProducer(ps: seq<ProducerPhase>, ps': seq<ProducerPhase>) {
    && |ps'| == |ps|
    && (forall i :: 0 <= i < |ps| ==>
          ps'[i] == ps[i] || (ps[i].Blocked? && ps'[i] == Woken(ps[i].timed, ps[i].expiration)))
    && ((exists i :: 0 <= i < |ps| && ps[i].Blocked?) ==>
          exists i :: 0 <= i < |ps| && ps[i].Blocked? && ps'[i].Woken?)
  }

  /** Monitor::Notify on worker_monitor_: the manager will check its count again. */
  function NotifyManager(m: ManagerPhase): ManagerPhase {
    if m == AddWait then AddCheck else if m == JoinWait then JoinCheck else m
  }

  // ----- Steps --------------------------------------------------------------------------------------

  datatype Action =
    | Start
    | AddWorkers
    | AddTest
    | Register(worker: nat)
    | Announce(worker: nat)
    | WorkerLoop(worker: nat, now: int)
    | FinishTask(worker: nat)
    | Retire(worker: nat)
    | Add(producer: nat, mayWait: bool, timed: bool, expiration: int, now: int, clock: int)
    | AddResume(producer: nat, clock: int)
    | AddTimeout(producer: nat)
    | RemoveNextPending
    | StopRequest(join: bool)
    | ReadWorkerCount
    | RemoveWorkers
    | JoinTest
    | MarkStopped
    | SpuriousWorker(worker: nat)
    | SpuriousProducer(producer: nat)
    | SpuriousManager

  predicate IsActive(s: State) {
    s.workerCount <= s.workerMax || (s.poolState == Joining && s.queue != [])
  }

  predicate IsFull(c: Config, q: seq<Task>) {
    c.limit > 0 && |q| >= c.limit
  }

  function DropExpired(s: State, now: int): State {
    var n := ExpiredRun(s.queue, now);
    s.(queue := s.queue[n..],
       log := s.log.(removed := s.log.removed + s.queue[..n], expired := s.log.expired + s.queue[..n]))
  }

  function PopFront(s: State): State
    requires s.queue != []
  {
    s.(queue := s.queue[1..], log := s.log.(removed := s.log.removed + [s.queue[0]]))
  }

  function MakeTask(s: State, expiration: int, clock: int): Task {
    Task(|s.log.accepted|, if expiration != 0 then clock + expiration else 0)
  }

  function Enqueue(s: State, t: Task): State {
    s.(queue := s.queue + [t], log := s.log.(accepted := s.log.accepted + [t]))
  }

  /** The tail of Add: push it, then signal monitor_ if a worker is idle. */
  ghost predicate PushStep(s: State, expiration: int, clock: int, s': State) {
    var pushed := Enqueue(s, MakeTask(s, expiration, clock));
    && s' == pushed.(workers := s'.workers)
    && if s.idleCount > 0 then NotifyWorker(s.workers, s'.workers) else s'.workers == s.workers
  }

  ghost predicate AddStep(c: Config, s: State, a: Action, s': State)
    requires a.Add?
  {
    && a.producer < |s.producers|
    && s.producers[a.producer].Outside?
    && if s.poolState != Started then s' == s        // IllegalStateException
       else
         var swept := DropExpired(s, a.now);
         if IsFull(c, swept.queue) then
           if a.mayWait
           then s' == swept.(producers := s.producers[a.producer := Blocked(a.timed, a.expiration)])
           else s' == swept                           // TooManyPendingTasksException
         else PushStep(swept, a.expiration, a.clock, s')
  }

  ghost predicate AddResumeStep(c: Config, s: State, a: Action, s': State)
    requires a.AddResume?
  {
    && a.producer < |s.producers|
    && s.producers[a.producer].Woken?
    && var p := s.producers[a.producer];
       if IsFull(c, s.queue)
       then s' == s.(producers := s.producers[a.producer := Blocked(p.timed, p.expiration)])
       else PushStep(s.(producers := s.producers[a.producer := Outside]), p.expiration, a.clock, s')
  }

  /** Pop the front task and start it. */
  function StartFront(s: State, w: nat): State
    requires s.queue != [] && w < |s.workers|
  {
    var t := s.queue[0];
    var popped := PopFront(s);
    popped.(workers := s.workers[w := Executing(t)], log := popped.log.(taken := s.log.taken + [t]))
  }

  /** What the worker does with the queue once it is active: sweep, take the front task if there is one. */
  function TakeTask(s: State, w: nat, now: int): State
    requires w < |s.workers|
  {
    var swept := DropExpired(s, now);
    if swept.queue == [] then swept.(workers := s.workers[w := Checking])
    else
      StartFront(swept, w)
  }

  ghost predicate WorkerLoopStep(c: Config, s: State, a: Action, s': State)
    requires a.WorkerLoop?
  {
    && a.worker < |s.workers|
    && (s.workers[a.worker].Checking? || s.workers[a.worker].Signalled?)
    && var idle := if s.workers[a.worker].Signalled? then s.idleCount - 1 else s.idleCount;
       if !IsActive(s) then
         s' == s.(idleCount := idle, workers := s.workers[a.worker := Exiting])
       else if s.queue == [] then
         s' == s.(idleCount := idle + 1, workers := s.workers[a.worker := Waiting])
       else
         var took := TakeTask(s, a.worker, a.now).(idleCount := idle);
         && s' == took.(producers := s'.producers)
         && if c.limit != 0 && |took.queue| <= c.limit - 1
            then NotifyProducer(s.producers, s'.producers)
            else s'.producers == s.producers
  }

  ghost predicate RegisterStep(s: State, w: nat, s': State) {
    && w < |s.workers|
    && s.workers[w].Starting?
    && if s.workerCount < s.workerMax then
         s' == s.(workerCount := s.workerCount + 1,
                  workers := s.workers[w := if s.workerCount + 1 == s.workerMax then Announcing else Checking])
       else s' == s.(workers := s.workers[w := Exiting])
  }

  ghost predicate RetireStep(s: State, w: nat, s': State) {
    && w < |s.workers|
    && s.workers[w].Exiting?
    && s' == s.(workerCount := s.workerCount - 1,
                workers := s.workers[w := Dead],
                manager := if s.workerCount - 1 == s.workerMax then NotifyManager(s.manager) else s.manager)
  }

  /** The first critical section of RemoveWorker. */
  ghost predicate RemoveWorkersStep(s: State, s': State) {
    && s.manager.Shrink?
    && var value := s.manager.value;
       if value > s.workerMax then s' == s.(manager := Threw)
       else
         && s' == s.(manager := JoinCheck, workerMax := s.workerMax - value, workers := s'.workers)
         && if s.idleCount < value
            then s.idleCount >= 0 && NotifyWorkers(s.idleCount, s.workers, s'.workers)
            else s'.workers == NotifyAllWorkers(s.workers)
  }

  ghost predicate Next(c: Config, s: State, a: Action, s': State) {
    match a
    case Start =>
      if s.poolState == Uninitialized
      then s' == s.(poolState := Started, workers := NotifyAllWorkers(s.workers))
      else s' == s
    case AddWorkers =>
      && s.manager == Created
      && s' == s.(manager := AddCheck, workerMax := s.workerMax + c.workerTotal,
                  workers := seq(c.workerTotal, i => Starting))
    case AddTest =>
      && s.manager == AddCheck
      && s' == s.(manager := if s.workerCount == s.workerMax then Ready else AddWait)
    case Register(w) => RegisterStep(s, w, s')
    case Announce(w) =>
      && w < |s.workers| && s.workers[w].Announcing?
      && s' == s.(workers := s.workers[w := Checking], manager := NotifyManager(s.manager))
    case WorkerLoop(_, _) => WorkerLoopStep(c, s, a, s')
    case FinishTask(w) =>
      && w < |s.workers| && s.workers[w].Executing?
      && s' == s.(workers := s.workers[w := Checking], log := s.log.(finished := s.log.finished + [s.workers[w].task]))
    case Retire(w) => RetireStep(s, w, s')
    case Add(_, _, _, _, _, _) => AddStep(c, s, a, s')
    case AddResume(_, _) => AddResumeStep(c, s, a, s')
    case AddTimeout(p) =>
      && p < |s.producers| && !s.producers[p].Outside? && s.producers[p].timed
      && s' == s.(producers := s.producers[p := Outside])
    case RemoveNextPending =>
      if s.poolState != Started || s.queue == [] then s' == s
      else s' == PopFront(s).(log := PopFront(s).log.(handedBack := s.log.handedBack + [s.queue[0]]))
    case StopRequest(join) =>
      && s.manager == Ready
      && s' == s.(poolState := if join then Joining else Stopping, manager := ReadCount,
                  log := s.log.(joining := join, acceptedAtStop := |s.log.accepted|))
    case ReadWorkerCount =>
      s.manager == ReadCount && s' == s.(manager := Shrink(s.workerCount))
    case RemoveWorkers => RemoveWorkersStep(s, s')
    case JoinTest =>
      && s.manager == JoinCheck
      && s' == s.(manager := if s.workerCount == s.workerMax then SetStopped else JoinWait)
    case MarkStopped =>
      s.manager == SetStopped && s' == s.(manager := Finished, poolState := Stopped)
    case SpuriousWorker(w) =>
      && w < |s.workers| && s.workers[w].Waiting? && s' == s.(workers := s.workers[w := Signalled])
    case SpuriousProducer(p) =>
      && p < |s.producers| && s.producers[p].Blocked?
      && s' == s.(producers := s.producers[p := Woken(s.producers[p].timed, s.producers[p].expiration)])
    case SpuriousManager =>
      s' == s.(manager := NotifyManager(s.manager))
  }

  /** A run: states[i] -- actions[i] --> states[i+1]. */
  ghost predicate IsRun(c: Config, actions: seq<Action>, states: seq<State>) {
    && |states| == |actions| + 1
    && states[0] == InitState(c)
    && forall i :: 0 <= i < |actions| ==> Next(c, states[i], actions[i], states[i + 1])
  }
}
