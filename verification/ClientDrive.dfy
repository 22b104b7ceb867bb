/** Driving one thread of the client pool's machine: which of its steps are possible and what they do depends on its
    position, the queues, the count and the lock alone. */
module ClientDrive {
  import opened Results
  import opened Connections
  import opened ClientPool
  import opened ClientSafety
  import opened ClientTheorems

  /** A state as thread u sees it. */
  datatype Brief = Brief(
    pc: PC, hot: seq<ConnId>, cold: seq<ConnId>, created: int, lock: Option<Tid>, size: nat, sequence: SeqNo)

  function Of(s: State, u: Tid): Brief
    requires u < |s.threads|
  {
    Brief(s.threads[u], s.hot, s.cold, s.created, s.lock, s.size, s.sequence)
  }

  /** The steps used to drive a thread. */
  predicate Ready(b: Brief, a: Action) {
    match a
    case Begin(_) => b.pc.Start?
    case HotEmpty(_) => b.pc == Get(Hot1) && b.hot == []
    case PopHot(_, probe) => b.pc == Get(Hot1) && b.hot != [] && probe.Unhealthy?
    case LoadCount(_) => b.pc == Get(Load1)
    case LockCreate(_) => b.pc.Create? && b.lock == None && b.created < b.size
    case Dialed(_, _) => b.pc.Dial?
    case PopCold(_, probe) => b.pc == Get(Cold) && b.lock == None && b.cold != [] && probe.Unhealthy?
    case CloseConn(_) => b.pc.Closing?
    case Uncount(_) => b.pc.Uncounting?
    case Drop(_) => b.pc.Doomed?
    case PutHot(_) => b.pc.Putting? && |b.hot| < Max1(b.size / 2)
    case PutHotFull(_) => b.pc.Putting? && |b.hot| >= Max1(b.size / 2)
    case PutCold(_) => b.pc.PuttingCold? && b.lock == None
    case ReturnEarly(_) => b.pc.Held?
    case SendFail(_) => b.pc.Held?
    case Issue(_) => b.pc.Held? && b.sequence < MAX_SEQ
    case Write(_, ok) => b.pc.Issued? && ok
    case ReceiveFail(_, left) => b.pc.Sent? && left.Dead?
    case _ => false
  }

  function Effect(b: Brief, a: Action): Brief
    requires Ready(b, a) && !a.Dialed?
  {
    match a
    case Begin(_) => b.(pc := Get(Hot1))
    case HotEmpty(_) => b.(pc := Get(Load1))
    case PopHot(_, _) => b.(pc := Closing(b.hot[0], Load1), hot := b.hot[1..])
    case LoadCount(_) => b.(pc := if b.created < b.size then Create(Cold) else Get(Cold))
    case LockCreate(u) => b.(pc := Dial(b.pc.p), lock := Some(u))
    case PopCold(_, _) => b.(pc := Closing(b.cold[|b.cold| - 1], Hot2), cold := b.cold[..|b.cold| - 1])
    case CloseConn(_) => b.(pc := Uncounting(b.pc.c, b.pc.p))
    case Uncount(_) => b.(pc := Get(b.pc.p), created := b.created - 1)
    case Drop(_) => b.(pc := Start)
    case PutHot(_) => b.(pc := Start, hot := b.hot + [b.pc.c])
    case PutHotFull(_) => b.(pc := PuttingCold(b.pc.c))
    case PutCold(_) => b.(pc := Start, cold := b.cold + [b.pc.c])
    case ReturnEarly(_) => b.(pc := Putting(b.pc.c))
    case SendFail(_) => b.(pc := Doomed(b.pc.c))
    case Issue(_) => b.(pc := Issued(b.pc.c, b.sequence + 1), sequence := b.sequence + 1)
    case Write(_, _) => b.(pc := Sent(b.pc.c, b.pc.sent))
    case ReceiveFail(_, _) => b.(pc := Putting(b.pc.c))
  }

  lemma SeekEffect(s: State, u: Tid, a: Action)
    requires PlaceInv(s) && u < |s.threads| && Seeks(a) && a.t == u && Ready(Of(s, u), a)
    ensures Enabled(s, a) && u < |Apply(s, a).threads|
    ensures !a.Dialed? ==> Of(Apply(s, a), u) == Effect(Of(s, u), a)
  {
  }

  lemma GiveEffect(s: State, u: Tid, a: Action)
    requires PlaceInv(s) && u < |s.threads| && Gives(a) && a.t == u && Ready(Of(s, u), a)
    ensures Enabled(s, a) && u < |Apply(s, a).threads| && Of(Apply(s, a), u) == Effect(Of(s, u), a)
  {
  }

  lemma CallEffect(s: State, u: Tid, a: Action)
    requires PlaceInv(s) && u < |s.threads| && Calls(a) && a.t == u && Ready(Of(s, u), a)
    ensures Enabled(s, a) && u < |Apply(s, a).threads| && Of(Apply(s, a), u) == Effect(Of(s, u), a)
  {
  }

  /** A run from a state that has the invariant. */
  ghost predicate Reached(s0: State, run: seq<Action>, s: State) {
    Inv(s0) && RunFrom(s0, run) == Some(s)
  }

  /** A thread takes a step it is ready for. */
  lemma Drive(s0: State, before: seq<Action>, s: State, u: Tid, a: Action) returns (more: seq<Action>, s': State)
    requires Reached(s0, before, s) && u < |s.threads| && Ready(Of(s, u), a) && a.t == u
    ensures more == before + [a] && Reached(s0, more, s') && Step(s, a) == Some(s') && u < |s'.threads|
    ensures !a.Dialed? ==> Of(s', u) == Effect(Of(s, u), a)
  {
    InvRunFrom(s0, before);
    if Seeks(a) { SeekEffect(s, u, a); } else if Gives(a) { GiveEffect(s, u, a); } else { CallEffect(s, u, a); }
    more, s' := before + [a], Apply(s, a);
    Then(s0, before, s, a, s');
  }

  /** A new thread. */
  lemma Arrive(s0: State, before: seq<Action>, s: State) returns (more: seq<Action>, s': State, u: Tid)
    requires Reached(s0, before, s)
    ensures more == before + [Spawn] && Reached(s0, more, s') && Step(s, Spawn) == Some(s')
    ensures u < |s'.threads| && Of(s', u) == Brief(Start, s.hot, s.cold, s.created, s.lock, s.size, s.sequence)
  {
    u := |s.threads|;
    more, s' := before + [Spawn], Apply(s, Spawn);
    Then(s0, before, s, Spawn, s');
  }
}
