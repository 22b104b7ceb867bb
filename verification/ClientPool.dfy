/** The client's connection pool and calls as interleaved atomic steps (clientconn.go, call.go, client.go).
    Threads are callers and heartbeats; the prewarmer and the servers are steps of their own. A run ends when
    the pool is closed or the sequence counter would wrap. */
module ClientPool {
  import opened Results
  import opened Connections

  type Tid = nat
  type SeqNo = nat

  const MAX_SEQ := 0xFFFF_FFFF_FFFF_FFFF

  /** Where `get` stands while it holds no connection. */
  datatype Point = Hot1 | Load1 | Cold | Hot2 | Load2 | Wait(i: nat)

  datatype PC =
    | Start                              // between calls, or about to try again
    | Get(p: Point)
    | Create(p: Point)                   // createNewConn, before the lock; p is where a failure continues
    | Dial(p: Point)                     // createNewConn, holding the lock
    | Closing(c: ConnId, p: Point)       // releaseConn of an unhealthy connection: conn.Close()
    | Uncounting(c: ConnId, p: Point)    // ... then the decrement of created
    | Held(c: ConnId)                    // get has returned c
    | Issued(c: ConnId, sent: SeqNo)     // sendMsg has registered the call
    | Sent(c: ConnId, sent: SeqNo)       // the request is written
    | Doomed(c: ConnId)                  // sendMsg has failed: the connection will be closed, not put back
    | Putting(c: ConnId)
    | PuttingCold(c: ConnId)             // the hot queue was full

  function ConnOf(pc: PC): Option<ConnId> {
    match pc
    case Closing(c, _) => Some(c)
    case Uncounting(c, _) => Some(c)
    case Held(c) => Some(c)
    case Issued(c, _) => Some(c)
    case Sent(c, _) => Some(c)
    case Doomed(c) => Some(c)
    case Putting(c) => Some(c)
    case PuttingCold(c) => Some(c)
    case _ => None
  }

  datatype Status = Idle | InUse | Closed

  /** What is left of a connection's byte stream. Whole: the reader stands at the start of a frame. Torn: a receive
      stopped inside a frame, so what is read next may be anything. Dead: nothing more can be read. */
  datatype Stream = Whole | Torn | Dead

  /** One connection: requests the server has not answered, whole replies not yet read, the stream, and, as
      history, whether every receive on it so far was of a whole frame and how many timed out between frames. */
  datatype Wire = Wire(
    status: Status, unanswered: set<SeqNo>, inbox: seq<SeqNo>, stream: Stream, intact: bool, timeouts: nat)

  const NewWire := Wire(Idle, {}, [], Whole, true, 0)

  /** The requests whose replies have not been read. */
  function Outstanding(w: Wire): set<SeqNo> {
    w.unanswered + set q | q in w.inbox
  }

  /** Where a connection is; Leaked: closed by a caller that did not decrement created. */
  datatype Place = InHot | InCold | HeldBy(t: Tid) | Leaked | Released

  /** A successful invoke: the number sent, the number of the reply it returned, whose call that was. */
  datatype Reply = Reply(t: Tid, sent: SeqNo, got: SeqNo, owner: Tid, intact: bool)

  datatype State = State(
    size: nat,
    hot: seq<ConnId>,
    cold: seq<ConnId>,
    created: int,
    lock: Option<Tid>,
    threads: seq<PC>,
    wires: seq<Wire>,
    sequence: SeqNo,
    pending: map<SeqNo, Tid>,
    prewarmLeft: nat,
    // history
    place: seq<Place>,
    prewarmed: nat,
    log: seq<Reply>)

  function Max1(n: nat): nat { if n < 1 then 1 else n }
  function HotCap(s: State): nat { Max1(s.size / 2) }
  function Quarter(size: nat): nat { Max1(size / 4) }

  /** newConnPool; the prewarmer has its iterations before it. */
  function Init(size: nat): State {
    State(size, [], [], 0, None, [], [], 0, map[], Quarter(size), [], 0, [])
  }

  // ---- steps

  /** What isHealthy finds. pingCheck tries to read one byte and takes success, too, for health; the byte is then gone
      from the reply it began. */
  datatype Probe = Unhealthy | Healthy | TakesByte

  datatype Action =
    | Spawn
    | Prewarm(ok: bool)
    | Begin(t: Tid)
    | PopHot(t: Tid, probe: Probe)
    | HotEmpty(t: Tid)
    | Timeout(t: Tid)
    | GiveUp(t: Tid)
    | LoadCount(t: Tid)
    | LockCreate(t: Tid)
    | Dialed(t: Tid, ok: bool)
    | PopCold(t: Tid, probe: Probe)
    | CloseConn(t: Tid)
    | Uncount(t: Tid)
    | ReturnEarly(t: Tid)
    | SendFail(t: Tid)
    | Issue(t: Tid)
    | Write(t: Tid, ok: bool)
    | Drop(t: Tid)
    | Answer(c: ConnId, seqNo: SeqNo)
    | Receive(t: Tid, got: SeqNo, ok: bool)
    | ReceiveCorrupt(t: Tid)
    | ReceiveFail(t: Tid, left: Stream)
    | PutHot(t: Tid)
    | PutHotFull(t: Tid)
    | PutCold(t: Tid)

  predicate IsThread(s: State, t: Tid) { t < |s.threads| }

  predicate OnConn(s: State, t: Tid) {
    IsThread(s, t) && ConnOf(s.threads[t]).Some? && ConnOf(s.threads[t]).value < |s.wires| == |s.place|
  }

  /** Thread t waits for a reply, and the next it may decode is numbered got. */
  predicate CanReceive(s: State, t: Tid, got: SeqNo) {
    OnConn(s, t) && s.threads[t].Sent? && Readable(s.wires[s.threads[t].c], got)
  }

  predicate CanProbe(s: State, c: ConnId, probe: Probe) {
    c < |s.wires| == |s.place| && (probe.TakesByte? ==> CanRead(s.wires[c]))
  }

  predicate AtHot(pc: PC) {
    pc.Get? && (pc.p.Hot1? || pc.p.Hot2? || (pc.p.Wait? && pc.p.i < 5))
  }

  predicate Enabled(s: State, a: Action) {
    match a
    case Spawn => true
    case Prewarm(ok) => s.prewarmLeft > 0 && (ok ==> s.lock == None)
    case Begin(t) => IsThread(s, t) && s.threads[t].Start?
    case PopHot(t, probe) => IsThread(s, t) && AtHot(s.threads[t]) && s.hot != [] && CanProbe(s, s.hot[0], probe)
    case HotEmpty(t) =>
      IsThread(s, t) && s.threads[t].Get? && (s.threads[t].p.Hot1? || s.threads[t].p.Hot2?) && s.hot == []
    case Timeout(t) => IsThread(s, t) && s.threads[t].Get? && s.threads[t].p.Wait? && s.threads[t].p.i < 5
    case GiveUp(t) => IsThread(s, t) && s.threads[t].Get? && s.threads[t].p.Wait? && s.threads[t].p.i >= 5
    case LoadCount(t) =>
      && IsThread(s, t) && s.threads[t].Get?
      && (s.threads[t].p.Load1? || (s.threads[t].p.Load2? && s.lock == None))
    case LockCreate(t) => IsThread(s, t) && s.threads[t].Create? && s.lock == None
    case Dialed(t, _) => IsThread(s, t) && s.threads[t].Dial?
    case PopCold(t, probe) => IsThread(s, t) && s.threads[t].Get? && s.threads[t].p.Cold? && s.lock == None
                              && (s.cold != [] ==> CanProbe(s, s.cold[|s.cold| - 1], probe))
    case CloseConn(t) => OnConn(s, t) && s.threads[t].Closing?
    case Uncount(t) => OnConn(s, t) && s.threads[t].Uncounting?
    case ReturnEarly(t) => OnConn(s, t) && s.threads[t].Held?
    case SendFail(t) => OnConn(s, t) && s.threads[t].Held?
    case Issue(t) => OnConn(s, t) && s.threads[t].Held? && s.sequence < MAX_SEQ
    case Write(t, _) => OnConn(s, t) && s.threads[t].Issued?
    case Drop(t) => OnConn(s, t) && s.threads[t].Doomed?
    case Answer(c, q) => c < |s.wires| && q in s.wires[c].unanswered
    case Receive(t, got, _) => CanReceive(s, t, got)
    case ReceiveCorrupt(t) => OnConn(s, t) && s.threads[t].Sent? && CanRead(s.wires[s.threads[t].c])
    case ReceiveFail(t, left) => OnConn(s, t) && s.threads[t].Sent? && Leaves(s.wires[s.threads[t].c].stream, left)
    case PutHot(t) => OnConn(s, t) && s.threads[t].Putting? && |s.hot| < HotCap(s)
    case PutHotFull(t) => OnConn(s, t) && s.threads[t].Putting? && |s.hot| >= HotCap(s)
    case PutCold(t) => OnConn(s, t) && s.threads[t].PuttingCold? && s.lock == None
  }

  /** What a receive may decode. */
  predicate Readable(w: Wire, got: SeqNo) {
    match w.stream
    case Whole => w.inbox != [] && got == w.inbox[0]
    case Torn => true
    case Dead => false
  }

  predicate CanRead(w: Wire) {
    w.stream.Torn? || (w.stream.Whole? && w.inbox != [])
  }

  /** How a failed receive may leave the stream. A timeout between frames leaves it whole; a timeout inside one, a
      wrong magic number or a length over the limit tears it; an end of file or a reset kills it. */
  predicate Leaves(before: Stream, after: Stream) {
    match before
    case Whole => true
    case Torn => !after.Whole?
    case Dead => after.Dead?
  }

  // The ways a step changes threads, queues and places.

  function SetPC(s: State, t: Tid, pc: PC): State
    requires t < |s.threads|
  {
    s.(threads := s.threads[t := pc])
  }

  function SetWire(s: State, c: ConnId, w: Wire): State
    requires c < |s.wires|
  {
    s.(wires := s.wires[c := w])
  }

  function Mark(s: State, c: ConnId, st: Status): State
    requires c < |s.wires|
  {
    SetWire(s, c, s.wires[c].(status := st))
  }

  /** Thread t moves to pc and connection c to place p. */
  function Move(s: State, t: Tid, pc: PC, c: ConnId, p: Place): State
    requires t < |s.threads| && c < |s.place|
  {
    s.(threads := s.threads[t := pc], place := s.place[c := p])
  }

  /** A new connection, counted, at place p. */
  function Dialled(s: State, p: Place): State {
    s.(wires := s.wires + [NewWire], place := s.place + [p], created := s.created + 1)
  }

  /** Where get goes on after a failed attempt at a point. */
  function After(p: Point): Point {
    match p
    case Hot1 => Load1
    case Load1 => Cold
    case Cold => Hot2
    case Hot2 => Load2
    case Load2 => Wait(0)
    case Wait(i) => Wait(i + 1)
  }

  function Probed(w: Wire, probe: Probe): Wire {
    w.(status := InUse, stream := if probe.TakesByte? then Torn else w.stream)
  }

  /** A popped connection: used if healthy, else closed and recycled. */
  function Popped(s: State, t: Tid, c: ConnId, probe: Probe): State
    requires t < |s.threads| && s.threads[t].Get? && c < |s.wires| == |s.place|
  {
    if !probe.Unhealthy? then SetWire(Move(s, t, Held(c), c, HeldBy(t)), c, Probed(s.wires[c], probe))
    else Move(s, t, Closing(c, After(s.threads[t].p)), c, HeldBy(t))
  }

  /** Steps of a thread that holds no connection. */
  predicate Seeks(a: Action) {
    || a.Begin? || a.PopHot? || a.HotEmpty? || a.Timeout? || a.GiveUp?
    || a.LoadCount? || a.LockCreate? || a.Dialed? || a.PopCold?
  }

  /** Steps of a thread that gives up the connection it holds. */
  predicate Gives(a: Action) {
    a.CloseConn? || a.Uncount? || a.Drop? || a.PutHot? || a.PutHotFull? || a.PutCold?
  }

  /** Steps of a call on the connection its thread holds. */
  predicate Calls(a: Action) {
    a.ReturnEarly? || a.SendFail? || a.Issue? || a.Write? || a.Receive? || a.ReceiveCorrupt? || a.ReceiveFail?
  }

  function Seek(s: State, a: Action): State
    requires Enabled(s, a) && Seeks(a)
  {
    var pc := s.threads[a.t];
    match a
    case Begin(t) => SetPC(s, t, Get(Hot1))
    case PopHot(t, probe) => Popped(s, t, s.hot[0], probe).(hot := s.hot[1..])
    case HotEmpty(t) => SetPC(s, t, Get(After(pc.p)))
    case Timeout(t) => SetPC(s, t, Get(After(pc.p)))
    case GiveUp(t) => SetPC(s, t, Start)
    case LoadCount(t) => SetPC(s, t, if s.created < s.size then Create(After(pc.p)) else Get(After(pc.p)))
    case LockCreate(t) =>
      if s.created >= s.size then SetPC(s, t, Get(pc.p)) else SetPC(s, t, Dial(pc.p)).(lock := Some(t))
    case Dialed(t, ok) =>
      if !ok then SetPC(s, t, Get(pc.p)).(lock := None) else
      SetPC(Dialled(s, HeldBy(t)), t, Held(|s.wires|)).(lock := None, wires := s.wires + [NewWire.(status := InUse)])
    case PopCold(t, probe) =>
      if s.cold == [] then SetPC(s, t, Get(After(pc.p))) else
      var n := |s.cold| - 1;
      Popped(s, t, s.cold[n], probe).(cold := s.cold[..n])
  }

  function Give(s: State, a: Action): State
    requires Enabled(s, a) && Gives(a)
  {
    var pc := s.threads[a.t];
    match a
    case CloseConn(t) => Mark(SetPC(s, t, Uncounting(pc.c, pc.p)), pc.c, Closed)
    case Uncount(t) => Move(s, t, Get(pc.p), pc.c, Released).(created := s.created - 1)
    case Drop(t) => Mark(Move(s, t, Start, pc.c, Leaked), pc.c, Closed)
    case PutHot(t) => Mark(Move(s, t, Start, pc.c, InHot), pc.c, Idle).(hot := s.hot + [pc.c])
    case PutHotFull(t) => Mark(SetPC(s, t, PuttingCold(pc.c)), pc.c, Idle)
    case PutCold(t) => Move(s, t, Start, pc.c, InCold).(cold := s.cold + [pc.c])
  }

  /** The first reply is gone from the stream, if there was one. */
  function Consumed(w: Wire): Wire {
    w.(inbox := if w.inbox == [] then [] else w.inbox[1..])
  }

  /** A receive has failed. */
  function Failed(w: Wire, left: Stream): Wire {
    w.(stream := left, intact := false, timeouts := w.timeouts + if left.Whole? then 1 else 0)
  }

  function Call(s: State, a: Action): State
    requires Enabled(s, a) && Calls(a)
  {
    var pc := s.threads[a.t];
    var w := s.wires[pc.c];
    match a
    case ReturnEarly(t) => SetPC(s, t, Putting(pc.c))
    case SendFail(t) => SetPC(s, t, Doomed(pc.c))
    case Issue(t) =>
      var q := s.sequence + 1;
      SetPC(s, t, Issued(pc.c, q)).(sequence := q, pending := s.pending[q := t])
    case Write(t, ok) =>
      if !ok then SetPC(s, t, Doomed(pc.c)).(pending := s.pending - {pc.sent}) else
      SetWire(SetPC(s, t, Sent(pc.c, pc.sent)), pc.c, w.(unanswered := w.unanswered + {pc.sent}))
    case Receive(t, got, ok) =>
      var s1 := SetWire(SetPC(s, t, Putting(pc.c)), pc.c, Consumed(w));
      if got !in s.pending then s1 else
      s1.(pending := s.pending - {got},
          log := if ok then s.log + [Reply(t, pc.sent, got, s.pending[got], w.intact)] else s.log)
    case ReceiveCorrupt(t) => SetWire(SetPC(s, t, Putting(pc.c)), pc.c, Consumed(w))
    case ReceiveFail(t, left) => SetWire(SetPC(s, t, Putting(pc.c)), pc.c, Failed(w, left))
  }

  function Apply(s: State, a: Action): State
    requires Enabled(s, a)
  {
    if Seeks(a) then Seek(s, a) else if Gives(a) then Give(s, a) else if Calls(a) then Call(s, a) else
    match a
    case Spawn => s.(threads := s.threads + [Start])
    case Prewarm(ok) =>
      var s1 := s.(prewarmLeft := s.prewarmLeft - 1);
      if !ok then s1 else
      Dialled(s1, InCold).(cold := s.cold + [|s.wires|], prewarmed := s.prewarmed + 1)
    case Answer(c, q) =>
      var w := s.wires[c];
      SetWire(s, c, w.(unanswered := w.unanswered - {q}, inbox := w.inbox + [q]))
  }

  function Step(s: State, a: Action): Option<State> {
    if Enabled(s, a) then Some(Apply(s, a)) else None
  }

  /** The state after a run from s; None if some step was not possible. */
  function RunFrom(s: State, actions: seq<Action>): Option<State> {
    if actions == [] then Some(s) else
    var n := |actions| - 1;
    match RunFrom(s, actions[..n])
    case None => None
    case Some(r) => Step(r, actions[n])
  }

  /** A run from an empty pool. */
  function Run(size: nat, actions: seq<Action>): Option<State> {
    RunFrom(Init(size), actions)
  }
}
