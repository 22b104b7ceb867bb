/** The server's worker dispatch (server.go) as interleaved atomic steps: a bounded channel of functions, workers
    that poll it and replace themselves, direct execution when the channel is full, and a stop that drains it. */
module Dispatch {

  type TaskId = nat
  type WorkerKey = nat   // one goroutine; its workerID need not be unique

  const RESET_THRESHOLD := 65536

  /** Where a worker is in its loop. Took: received a function; Running: load counted, inside f; Ended: f is over
      (returned or recovered), load not yet uncounted. */
  datatype Pc = Polling | Took(task: TaskId) | Running(task: TaskId) | Ended(task: TaskId)

  /** One goroutine. History: the functions it has run and the times it found the channel empty. */
  datatype Worker = Worker(id: int, completed: nat, pc: Pc, ran: nat, polls: nat)

  function NewWorker(id: int): Worker { Worker(id, 0, Polling, 0, 0) }

  /** A round of the loop that found nothing. */
  function Polled(v: Worker): Worker { v.(completed := v.completed + 1, polls := v.polls + 1, pc := Polling) }

  /** A round that ran a function. */
  function Served(v: Worker): Worker { v.(completed := v.completed + 1, ran := v.ran + 1, pc := Polling) }

  /** History: where each submitted function is. */
  datatype Place = Queued | With(w: WorkerKey) | Direct | Done | Dropped

  datatype State = State(
    pool: bool,                        // enableWorkerPool
    cap: nat,                          // taskQueueSize
    queue: seq<TaskId>,
    stopping: bool,
    closed: bool,
    loads: seq<int>,                   // workerLoads
    numWorkers: int,
    workers: map<WorkerKey, Worker>,   // live goroutines
    nextWorker: WorkerKey,
    scheduled: nat,                    // replacements a panic has started with go
    direct: set<TaskId>,               // functions run by a goroutine of their own
    dropped: set<TaskId>,
    place: seq<Place>,
    starts: seq<nat>,                  // history: how often each function was called
    ends: seq<nat>)                    // history: how often each function came to its end

  datatype Action =
    | Submit                      // serveRequest's select, or the goroutine without a pool
    | DirectEnd(task: TaskId)
    | Take(w: WorkerKey)
    | Idle(w: WorkerKey)          // the default case counts as a round too
    | Exit(w: WorkerKey)
    | Begin(w: WorkerKey)
    | End(w: WorkerKey)
    | Release(w: WorkerKey)
    | Recycle(w: WorkerKey)
    | Panic(w: WorkerKey)         // outside f
    | RunScheduled
    | Spawn                       // workerCreator called at start, by the monitor or by quickScaleUp
    | SetNumWorkers(n: int)       // the stores of the same three
    | Stop
    | Drain
    | Close

  predicate At(s: State, w: WorkerKey, pc: Pc) {
    w in s.workers && s.workers[w].pc == pc
  }

  /** The loop is about to poll. */
  predicate Polls(s: State, w: WorkerKey) {
    At(s, w, Polling) && s.workers[w].completed < RESET_THRESHOLD
  }

  predicate Enabled(s: State, a: Action) {
    match a
    case Submit => !s.closed
    case DirectEnd(t) => t in s.direct && t < |s.place| == |s.ends|
    case Take(w) => Polls(s, w) && s.queue != [] && s.queue[0] < |s.place|
    case Idle(w) => Polls(s, w) && s.queue == [] && !s.closed
    case Exit(w) => Polls(s, w) && s.queue == [] && s.closed
    case Begin(w) => w in s.workers && s.workers[w].pc.Took? && s.workers[w].pc.task < |s.starts|
    case End(w) => w in s.workers && s.workers[w].pc.Running? && s.workers[w].pc.task < |s.place| == |s.ends|
    case Release(w) => w in s.workers && s.workers[w].pc.Ended?
    case Recycle(w) => At(s, w, Polling) && s.workers[w].completed >= RESET_THRESHOLD
    case Panic(w) => At(s, w, Polling)
    case RunScheduled => s.scheduled > 0
    case Drain => s.stopping && s.queue != [] && s.queue[0] < |s.place|
    case Close => s.stopping
    case Spawn => true
    case SetNumWorkers(_) => true
    case Stop => true
  }

  /** int32 addition of one. */
  function Next32(n: int): int {
    if n == 0x7FFF_FFFF then -0x8000_0000 else n + 1
  }

  /** workerCreator: the new id is the counter before the increment, whatever it was. */
  function Create(s: State): State {
    s.(numWorkers := Next32(s.numWorkers), nextWorker := s.nextWorker + 1,
       workers := s.workers[s.nextWorker := NewWorker(s.numWorkers)])
  }

  function Move(s: State, w: WorkerKey, pc: Pc): State
    requires w in s.workers
  {
    s.(workers := s.workers[w := s.workers[w].(pc := pc)])
  }

  /** The load counter of an id inside the array; other ids have none. */
  function AddLoad(loads: seq<int>, id: int, d: int): seq<int> {
    if 0 <= id < |loads| then loads[id := loads[id] + d] else loads
  }

  function Apply(s: State, a: Action): State
    requires Enabled(s, a)
  {
    match a
    case Submit =>
      var t := |s.place|;
      if s.pool && |s.queue| < s.cap then
        s.(queue := s.queue + [t], place := s.place + [Queued], starts := s.starts + [0], ends := s.ends + [0])
      else
        s.(direct := s.direct + {t}, place := s.place + [Direct], starts := s.starts + [1], ends := s.ends + [0])
    case DirectEnd(t) =>
      s.(direct := s.direct - {t}, place := s.place[t := Done], ends := s.ends[t := s.ends[t] + 1])
    case Take(w) =>
      Move(s, w, Took(s.queue[0])).(queue := s.queue[1..], place := s.place[s.queue[0] := With(w)])
    case Idle(w) => s.(workers := s.workers[w := Polled(s.workers[w])])
    case Exit(w) => s.(workers := s.workers - {w})
    case Begin(w) =>
      var t := s.workers[w].pc.task;
      Move(s, w, Running(t)).(loads := AddLoad(s.loads, s.workers[w].id, 1), starts := s.starts[t := s.starts[t] + 1])
    case End(w) =>
      var t := s.workers[w].pc.task;
      Move(s, w, Ended(t)).(place := s.place[t := Done], ends := s.ends[t := s.ends[t] + 1])
    case Release(w) =>
      s.(workers := s.workers[w := Served(s.workers[w])], loads := AddLoad(s.loads, s.workers[w].id, -1))
    case Recycle(w) => Create(s.(workers := s.workers - {w}))
    case Panic(w) => s.(workers := s.workers - {w}, scheduled := s.scheduled + 1)
    case RunScheduled => Create(s.(scheduled := s.scheduled - 1))
    case Spawn => Create(s)
    case SetNumWorkers(n) => s.(numWorkers := n)
    case Stop => s.(stopping := true)
    case Drain =>
      s.(queue := s.queue[1..], place := s.place[s.queue[0] := Dropped], dropped := s.dropped + {s.queue[0]})
    case Close => s.(closed := true)
  }

  function Init(pool: bool, cap: nat, maxWorkers: nat): State {
    State(pool, cap, [], false, false, seq(maxWorkers, _ => 0), 0, map[], 0, 0, {}, {}, [], [], [])
  }

  /** Some run of enabled actions leads from s to s'. */
  ghost predicate Reaches(s: State, run: seq<Action>, s': State)
    decreases |run|
  {
    if run == [] then s == s' else Enabled(s, run[0]) && Reaches(Apply(s, run[0]), run[1..], s')
  }
}
