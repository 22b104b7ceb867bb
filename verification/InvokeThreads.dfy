/** The threads of the client pool's machine do with connections what invoke does: nothing else, and all of it. */
module InvokeThreads {
  import opened Results
  import opened Connections
  import opened Invoke
  import opened ClientPool
  import opened ClientSafety
  import opened ClientTheorems
  import opened ClientReplies
  import opened ClientDrive

  // ---- the events of a thread

  function PhaseOf(pc: PC): Phase {
    match pc
    case Held(c) => Has(c)
    case Issued(c, _) => Has(c)
    case Sent(c, _) => Has(c)
    case Doomed(c) => ToClose(c)
    case Putting(c) => ToPut(c)
    case PuttingCold(c) => ToPut(c)
    case _ => Free
  }

  /** The event a step of the machine is for its thread, if any. */
  function EventOf(s: State, a: Action): Option<Event>
    requires Enabled(s, a)
  {
    match a
    case PopHot(t, probe) => if probe.Unhealthy? then None else Some(Got(s.hot[0]))
    case PopCold(t, probe) => if s.cold == [] || probe.Unhealthy? then None else Some(Got(s.cold[|s.cold| - 1]))
    case Dialed(t, ok) => if ok then Some(Got(|s.wires|)) else None
    case ReturnEarly(t) => Some(Left(s.threads[t].c))
    case SendFail(t) => Some(Rejected(s.threads[t].c))
    case Write(t, ok) => if ok then None else Some(Rejected(s.threads[t].c))
    case Receive(t, _, _) => Some(Replied(s.threads[t].c))
    case ReceiveCorrupt(t) => Some(Replied(s.threads[t].c))
    case ReceiveFail(t, _) => Some(Replied(s.threads[t].c))
    case PutHot(t) => Some(PutBack(s.threads[t].c))
    case PutCold(t) => Some(PutBack(s.threads[t].c))
    case Drop(t) => Some(Event.Closed(s.threads[t].c))
    case _ => None
  }

  lemma SeekPhase(s: State, a: Action)
    requires Enabled(s, a) && Seeks(a)
    ensures a.t < |s.threads| == |Apply(s, a).threads|
    ensures var p, p' := PhaseOf(s.threads[a.t]), PhaseOf(Apply(s, a).threads[a.t]);
            match EventOf(s, a) case None => p' == p case Some(e) => Next(p, e) == Some(p')
  {
  }

  lemma GivePhase(s: State, a: Action)
    requires Enabled(s, a) && Gives(a)
    ensures a.t < |s.threads| == |Apply(s, a).threads|
    ensures var p, p' := PhaseOf(s.threads[a.t]), PhaseOf(Apply(s, a).threads[a.t]);
            match EventOf(s, a) case None => p' == p case Some(e) => Next(p, e) == Some(p')
  {
  }

  lemma ReceivePhase(s: State, a: Action)
    requires Enabled(s, a) && (a.Receive? || a.ReceiveCorrupt? || a.ReceiveFail?)
    ensures a.t < |s.threads| == |Apply(s, a).threads|
    ensures var c := s.threads[a.t].c;
            && PhaseOf(s.threads[a.t]) == Has(c) && PhaseOf(Apply(s, a).threads[a.t]) == ToPut(c)
            && EventOf(s, a) == Some(Replied(c))
  {
    ReceiveShape(s, a);
  }

  lemma CallPhase(s: State, a: Action)
    requires Enabled(s, a) && Calls(a)
    ensures a.t < |s.threads| == |Apply(s, a).threads|
    ensures var p, p' := PhaseOf(s.threads[a.t]), PhaseOf(Apply(s, a).threads[a.t]);
            match EventOf(s, a) case None => p' == p case Some(e) => Next(p, e) == Some(p')
  {
    if a.Receive? || a.ReceiveCorrupt? || a.ReceiveFail? { ReceivePhase(s, a); }
  }

  lemma OthersPhase(s: State, a: Action, t: Tid)
    requires Enabled(s, a) && Actor(a) != Some(t) && t < |s.threads|
    ensures t < |Apply(s, a).threads| && Apply(s, a).threads[t] == s.threads[t]
  {
    if Actor(a).Some? { ThreadMoves(s, a); }
  }

  /** The event of thread t that a step is, if any. */
  function NewEvents(s: State, a: Action, t: Tid): seq<Event>
    requires Enabled(s, a)
  {
    if Actor(a) == Some(t) && EventOf(s, a).Some? then [EventOf(s, a).value] else []
  }

  /** The events of thread t in a run. */
  function EventsFrom(s: State, actions: seq<Action>, t: Tid): seq<Event>
    requires RunFrom(s, actions).Some?
  {
    if actions == [] then [] else
    var n := |actions| - 1;
    EventsFrom(s, actions[..n], t) + NewEvents(RunFrom(s, actions[..n]).value, actions[n], t)
  }

  function EventsOf(size: nat, actions: seq<Action>, t: Tid): seq<Event>
    requires ClientPool.Run(size, actions).Some?
  {
    EventsFrom(Init(size), actions, t)
  }

  /** A thread of the machine takes and gives up connections as invoke does. */
  lemma {:induction false} ThreadsFollow(size: nat, actions: seq<Action>, t: Tid)
    requires ClientPool.Run(size, actions).Some?
    ensures Invoke.Follow(Free, EventsOf(size, actions, t)) == Some(PhaseIn(ClientPool.Run(size, actions).value, t))
    decreases |actions|
  {
    if actions != [] {
      var r, a := LastStep(Init(size), actions);
      var before := actions[..|actions| - 1];
      ThreadsFollow(size, before, t);
      ThreadStep(r, a, t);
      FollowSnoc(EventsOf(size, before, t), NewEvents(r, a, t));
    }
  }

  function PhaseIn(s: State, t: Tid): Phase {
    if t < |s.threads| then PhaseOf(s.threads[t]) else Free
  }

  lemma ThreadStep(s: State, a: Action, t: Tid)
    requires Enabled(s, a)
    ensures var s' := Apply(s, a);
            var p, p' := PhaseIn(s, t), PhaseIn(s', t);
            if Actor(a) == Some(t) && EventOf(s, a).Some? then Next(p, EventOf(s, a).value) == Some(p') else p' == p
  {
    if Actor(a) == Some(t) {
      if Seeks(a) { SeekPhase(s, a); } else if Gives(a) { GivePhase(s, a); } else { CallPhase(s, a); }
    } else if t < |s.threads| {
      OthersPhase(s, a, t);
    } else if t < |Apply(s, a).threads| {
      NewThread(s, a, t);
    }
  }

  lemma NewThread(s: State, a: Action, t: Tid)
    requires Enabled(s, a) && t >= |s.threads| && t < |Apply(s, a).threads|
    ensures Apply(s, a).threads[t] == Start
  {
    if Actor(a).Some? { ThreadMoves(s, a); }
  }

  /** In every run, each thread gets and gives up connections exactly as some sequence of attempts does, when it
      has none in hand; and each connection is given up as often as it is got. */
  lemma ThreadsAreInvokes(size: nat, actions: seq<Action>, t: Tid) returns (attempts: seq<Attempt>)
    requires ClientPool.Run(size, actions).Some?
    requires PhaseIn(ClientPool.Run(size, actions).value, t).Free?
    ensures EventsOf(size, actions, t) == Trace(attempts)
    ensures forall c :: GotTimes(EventsOf(size, actions, t), c) == Releases(EventsOf(size, actions, t), c)
  {
    ThreadsFollow(size, actions, t);
    attempts := OnlyAttempts(EventsOf(size, actions, t));
    forall c
      ensures GotTimes(EventsOf(size, actions, t), c) == Releases(EventsOf(size, actions, t), c)
    {
      ReleasedOnce(EventsOf(size, actions, t), c);
    }
  }

  // ---- every attempt is possible in the machine

  /** The event that a step a thread is ready for is to it. */
  function EventIn(b: Brief, a: Action): seq<Event>
    requires Ready(b, a) && !a.Dialed?
  {
    match a
    case ReturnEarly(_) => [Left(b.pc.c)]
    case SendFail(_) => [Rejected(b.pc.c)]
    case ReceiveFail(_, _) => [Replied(b.pc.c)]
    case PutHot(_) => [PutBack(b.pc.c)]
    case PutCold(_) => [PutBack(b.pc.c)]
    case Drop(_) => [Event.Closed(b.pc.c)]
    case _ => []
  }

  /** Thread t takes a step it is ready for, and its events go on. */
  lemma GoOn(s0: State, before: seq<Action>, s: State, t: Tid, a: Action) returns (more: seq<Action>, s': State)
    requires Reached(s0, before, s) && t < |s.threads| && Ready(Of(s, t), a) && a.t == t && !a.Dialed?
    ensures Reached(s0, more, s') && t < |s'.threads| && Of(s', t) == Effect(Of(s, t), a)
    ensures EventsFrom(s0, more, t) == EventsFrom(s0, before, t) + EventIn(Of(s, t), a)
  {
    more, s' := Drive(s0, before, s, t, a);
    assert more[..|before|] == before;
  }

  /** Whoever holds the lock gives it up. */
  lemma Unlock(s0: State, before: seq<Action>, s: State, t: Tid) returns (more: seq<Action>, s': State)
    requires Reached(s0, before, s) && t < |s.threads| && ConnOf(s.threads[t]).Some?
    ensures Reached(s0, more, s') && t < |s'.threads| && Of(s', t).lock == None && Of(s', t).pc == Of(s, t).pc
    ensures EventsFrom(s0, more, t) == EventsFrom(s0, before, t)
  {
    more, s' := before, s;
    if s.lock.Some? {
      var u := s.lock.value;
      InvRunFrom(s0, before);
      more, s' := Drive(s0, before, s, u, Dialed(u, false));
      OthersPhase(s, Dialed(u, false), t);
      assert more[..|before|] == before;
    }
  }

  /** A connection on its way back arrives in one of the queues. */
  lemma Returns(s0: State, before: seq<Action>, s: State, t: Tid, c: ConnId) returns (more: seq<Action>, s': State)
    requires Reached(s0, before, s) && t < |s.threads| && Of(s, t).pc == Putting(c)
    ensures Reached(s0, more, s') && EventsFrom(s0, more, t) == EventsFrom(s0, before, t) + [PutBack(c)]
  {
    more, s' := Unlock(s0, before, s, t);
    more, s' := ReturnsUnlocked(s0, more, s', t, c);
  }

  lemma ReturnsUnlocked(s0: State, before: seq<Action>, s: State, t: Tid, c: ConnId)
    returns (more: seq<Action>, s': State)
    requires Reached(s0, before, s) && t < |s.threads| && Of(s, t).pc == Putting(c) && Of(s, t).lock == None
    ensures Reached(s0, more, s') && EventsFrom(s0, more, t) == EventsFrom(s0, before, t) + [PutBack(c)]
  {
    var b := Of(s, t);
    if |b.hot| < Max1(b.size / 2) {
      more, s' := GoOn(s0, before, s, t, PutHot(t));
    } else {
      more, s' := ReturnsCold(s0, before, s, t, c);
    }
  }

  lemma ReturnsCold(s0: State, before: seq<Action>, s: State, t: Tid, c: ConnId)
    returns (more: seq<Action>, s': State)
    requires Reached(s0, before, s) && t < |s.threads| && Ready(Of(s, t), PutHotFull(t)) && Of(s, t).lock == None
    requires Of(s, t).pc.c == c
    ensures Reached(s0, more, s') && EventsFrom(s0, more, t) == EventsFrom(s0, before, t) + [PutBack(c)]
  {
    more, s' := GoOn(s0, before, s, t, PutHotFull(t));
    more, s' := GoOn(s0, more, s', t, PutCold(t));
  }

  /** A request that cannot be sent. */
  lemma FailsToSend(s: State, t: Tid, c: ConnId) returns (more: seq<Action>, s': State)
    requires Inv(s) && t < |s.threads| && Of(s, t).pc == Held(c)
    ensures Reached(s, more, s') && EventsFrom(s, more, t) == [Rejected(c), Event.Closed(c)]
  {
    more, s' := GoOn(s, [], s, t, SendFail(t));
    more, s' := GoOn(s, more, s', t, Drop(t));
  }

  /** A call that returns before sending. */
  lemma ReturnsUnsent(s: State, t: Tid, c: ConnId) returns (more: seq<Action>, s': State)
    requires Inv(s) && t < |s.threads| && Of(s, t).pc == Held(c)
    ensures Reached(s, more, s') && EventsFrom(s, more, t) == [Left(c), PutBack(c)]
  {
    more, s' := GoOn(s, [], s, t, ReturnEarly(t));
    more, s' := Returns(s, more, s', t, c);
  }

  /** A request that is sent. */
  lemma Sends(s: State, t: Tid, c: ConnId) returns (more: seq<Action>, s': State)
    requires Inv(s) && t < |s.threads| && Of(s, t).pc == Held(c) && Of(s, t).sequence < MAX_SEQ
    ensures Reached(s, more, s') && t < |s'.threads| && Of(s', t).pc.Sent? && Of(s', t).pc.c == c
    ensures EventsFrom(s, more, t) == []
  {
    more, s' := GoOn(s, [], s, t, Issue(t));
    more, s' := GoOn(s, more, s', t, Write(t, true));
  }

  /** ... and a reply that is waited for. */
  lemma Exchanges(s: State, t: Tid, c: ConnId) returns (more: seq<Action>, s': State)
    requires Inv(s) && t < |s.threads| && Of(s, t).pc == Held(c) && Of(s, t).sequence < MAX_SEQ
    ensures Reached(s, more, s') && EventsFrom(s, more, t) == [Replied(c), PutBack(c)]
  {
    more, s' := Sends(s, t, c);
    more, s' := GoOn(s, more, s', t, ReceiveFail(t, Dead));
    more, s' := Returns(s, more, s', t, c);
  }

  /** A thread that has got a connection can bring its attempt to each of its ends. */
  lemma Finishes(s: State, t: Tid, c: ConnId, fate: Fate) returns (more: seq<Action>, s': State)
    requires Inv(s) && t < |s.threads| && Of(s, t).pc == Held(c)
    requires fate.ReceiveFails? || fate.Succeeds? ==> s.sequence < MAX_SEQ
    ensures Reached(s, more, s') && EventsFrom(s, more, t) == AttemptTrace(Gets(c, fate))[1..]
  {
    if fate.SendFails? {
      more, s' := FailsToSend(s, t, c);
    } else if fate.BadMethod? || fate.ClientClosing? {
      more, s' := ReturnsUnsent(s, t, c);
    } else {
      more, s' := Exchanges(s, t, c);
    }
  }

  /** In every reachable state, each attempt on a connection just got has a continuation that does what it does. */
  lemma AttemptsHappen(size: nat, actions: seq<Action>, t: Tid, fate: Fate) returns (more: seq<Action>)
    requires ClientPool.Run(size, actions).Some?
    requires var s := ClientPool.Run(size, actions).value; t < |s.threads| && s.threads[t].Held?
    requires fate.ReceiveFails? || fate.Succeeds? ==> ClientPool.Run(size, actions).value.sequence < MAX_SEQ
    ensures var s := ClientPool.Run(size, actions).value;
            && RunFrom(s, more).Some?
            && [Got(s.threads[t].c)] + EventsFrom(s, more, t) == AttemptTrace(Gets(s.threads[t].c, fate))
  {
    InvRun(size, actions);
    var s := ClientPool.Run(size, actions).value;
    var c := s.threads[t].c;
    var s';
    more, s' := Finishes(s, t, c, fate);
  }
}
