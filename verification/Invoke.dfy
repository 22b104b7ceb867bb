/** The retry loop of invoke (call.go) and the heartbeat (client.go): what they do with the connections they get,
    deferred closures included. */
module Invoke {
  import opened Bytes
  import opened Results
  import opened Connections

  /** What invoke does with a connection. */
  datatype Event =
    | Got(c: ConnId)
    | Left(c: ConnId)         // returns without waiting for a reply
    | Rejected(c: ConnId)     // sendMsg failed, or a heartbeat found the connection unhealthy
    | Replied(c: ConnId)      // recvMsg came back, with a reply or an error
    | PutBack(c: ConnId)
    | Closed(c: ConnId)

  /** How one attempt goes. */
  datatype Attempt = Cancelled | NoServer | NoConnection | Gets(c: ConnId, fate: Fate)

  datatype Fate = BadMethod | ClientClosing | SendFails | ReceiveFails | Succeeds

  /** The attempt ends invoke. */
  predicate Last(a: Attempt) {
    a.Cancelled? || (a.Gets? && (a.fate.BadMethod? || a.fate.ClientClosing? || a.fate.Succeeds?))
  }

  /** One get and one release. */
  function AttemptTrace(a: Attempt): seq<Event> {
    match a
    case Gets(c, BadMethod) => [Got(c), Left(c), PutBack(c)]
    case Gets(c, ClientClosing) => [Got(c), Left(c), PutBack(c)]
    case Gets(c, SendFails) => [Got(c), Rejected(c), Event.Closed(c)]
    case Gets(c, ReceiveFails) => [Got(c), Replied(c), PutBack(c)]
    case Gets(c, Succeeds) => [Got(c), Replied(c), PutBack(c)]
    case _ => []
  }

  function Trace(attempts: seq<Attempt>): seq<Event> {
    if attempts == [] then [] else
    var n := |attempts| - 1;
    Trace(attempts[..n]) + AttemptTrace(attempts[n])
  }

  /** The attempts made: up to the first that ends invoke. */
  function Made(script: seq<Attempt>): seq<Attempt> {
    if script == [] then [] else
    if Last(script[0]) then [script[0]] else [script[0]] + Made(script[1..])
  }

  // ---- the loop

  /** A deferred closure: the connection and the connReleased variable it captured. */
  class Deferred {
    const conn: ConnId
    var connReleased: bool

    constructor (conn: ConnId)
      ensures this.conn == conn && !connReleased
    {
      this.conn, connReleased := conn, false;
    }
  }

  class Log {
    var events: seq<Event>

    constructor ()
      ensures events == []
    {
      events := [];
    }

    method Add(e: Event)
      modifies this
      ensures events == old(events) + [e]
    {
      events := events + [e];
    }
  }

  ghost predicate AllReleased(defers: seq<Deferred>)
    reads defers
  {
    forall i :: 0 <= i < |defers| ==> defers[i].connReleased
  }

  /** What the deferred closures do, last first: one whose connection is not released puts it back. */
  ghost function Puts(defers: seq<Deferred>): seq<Event>
    reads defers
  {
    if defers == [] then [] else
    var n := |defers| - 1;
    (if defers[n].connReleased then [] else [PutBack(defers[n].conn)]) + Puts(defers[..n])
  }

  lemma {:induction false} NothingLeft(defers: seq<Deferred>)
    requires AllReleased(defers)
    ensures Puts(defers) == []
  {
    if defers != [] {
      var n := |defers| - 1;
      assert forall i :: 0 <= i < n ==> defers[..n][i] == defers[i];
      NothingLeft(defers[..n]);
    }
  }

  /** The deferred closures run at return. */
  method RunDeferred(log: Log, defers: seq<Deferred>)
    modifies log
    ensures log.events == old(log.events) + Puts(defers)
  {
    ghost var start := log.events;
    var i := |defers|;
    assert defers[..i] == defers;
    while i > 0
      invariant 0 <= i <= |defers|
      invariant log.events + Puts(defers[..i]) == start + Puts(defers)
    {
      i := i - 1;
      assert defers[..i + 1][..i] == defers[..i];
      ghost var before := log.events;
      if !defers[i].connReleased { log.Add(PutBack(defers[i].conn)); }
      Assoc(before, if defers[i].connReleased then [] else [PutBack(defers[i].conn)], Puts(defers[..i]));
    }
    assert defers[..0] == [];
  }

  /** With every connection released, running them does nothing. */
  method RunReleased(log: Log, defers: seq<Deferred>)
    requires AllReleased(defers)
    modifies log
    ensures log.events == old(log.events)
  {
    NothingLeft(defers);
    RunDeferred(log, defers);
  }

  lemma OneLeft(defers: seq<Deferred>, d: Deferred)
    requires AllReleased(defers) && !d.connReleased
    ensures Puts(defers + [d]) == [PutBack(d.conn)]
  {
    assert (defers + [d])[..|defers|] == defers;
    NothingLeft(defers);
  }

  /** One attempt, from get on. Unless it ends invoke, the loop goes on with one more closure deferred. */
  method Attempted(log: Log, defers: seq<Deferred>, c: ConnId, fate: Fate) returns (all: seq<Deferred>)
    requires AllReleased(defers)
    modifies log
    ensures log.events == old(log.events) + AttemptTrace(Gets(c, fate))
    ensures AllReleased(defers)
    ensures !Last(Gets(c, fate)) ==> AllReleased(all)
    ensures forall d :: d in all ==> d in defers || fresh(d)
  {
    log.Add(Got(c));
    var d := new Deferred(c);
    all := defers + [d];
    if fate.BadMethod? || fate.ClientClosing? {
      log.Add(Left(c));
      OneLeft(defers, d);
      RunDeferred(log, all);
    } else {
      Exchange(log, d, fate);
      if fate.Succeeds? {
        RunReleased(log, all);
      }
    }
  }

  /** The part of an attempt from sendMsg on. */
  method Exchange(log: Log, d: Deferred, fate: Fate)
    requires !fate.BadMethod? && !fate.ClientClosing?
    modifies log, d
    ensures d.connReleased
    ensures log.events == old(log.events) + AttemptTrace(Gets(d.conn, fate))[1..]
  {
    if fate.SendFails? {
      log.Add(Rejected(d.conn));
      d.connReleased := true;
      log.Add(Event.Closed(d.conn));
    } else {
      log.Add(Replied(d.conn));
      d.connReleased := true;
      log.Add(PutBack(d.conn));
    }
  }

  /** One turn of the loop. One that ends invoke runs the deferred closures. */
  method Turn(log: Log, defers: seq<Deferred>, a: Attempt) returns (all: seq<Deferred>)
    requires AllReleased(defers)
    modifies log
    ensures log.events == old(log.events) + AttemptTrace(a)
    ensures !Last(a) ==> AllReleased(all)
    ensures forall d :: d in all ==> d in defers || fresh(d)
  {
    all := defers;
    if a.Gets? {
      all := Attempted(log, defers, a.c, a.fate);
    } else if a.Cancelled? {
      RunReleased(log, defers);
    }
  }

  /** None of the first i attempts ends invoke, and they leave these events after start. */
  ghost predicate Upto(script: seq<Attempt>, i: nat, start: seq<Event>, events: seq<Event>)
    requires i <= |script|
  {
    GoesOn(script, i) && events == start + Trace(script[..i])
  }

  /** Invoke is over, with these events after start. */
  ghost predicate Over(script: seq<Attempt>, start: seq<Event>, events: seq<Event>, ok: bool) {
    && events == start + Trace(Made(script))
    && (ok <==> Made(script) != [] && Succeeded(Made(script)[|Made(script)| - 1]))
  }

  /** invoke: whatever happens to its attempts, each connection it gets is given up exactly once, on every path. */
  method Invoke(log: Log, script: seq<Attempt>) returns (ok: bool)
    modifies log
    ensures log.events == old(log.events) + Trace(Made(script))
    ensures ok <==> Made(script) != [] && Succeeded(Made(script)[|Made(script)| - 1])
  {
    var defers: seq<Deferred> := [];
    ghost var start := log.events;
    var i := 0;
    while i < |script|
      invariant 0 <= i <= |script|
      invariant (forall d :: d in defers ==> fresh(d)) && AllReleased(defers)
      invariant Upto(script, i, start, log.events)
    {
      ghost var before := log.events;
      defers := Turn(log, defers, script[i]);
      TurnAt(script, i, start, before);
      if Last(script[i]) { return Succeeded(script[i]); }
      i := i + 1;
    }
    RunReleased(log, defers);
    TurnsDone(script, start, log.events);
    return false;
  }

  /** None of the first i attempts ends invoke. */
  predicate GoesOn(script: seq<Attempt>, i: nat)
    requires i <= |script|
  {
    forall j :: 0 <= j < i ==> !Last(script[j])
  }

  predicate Succeeded(a: Attempt) {
    a.Gets? && a.fate.Succeeds?
  }

  lemma TurnAt(script: seq<Attempt>, i: nat, start: seq<Event>, events: seq<Event>)
    requires i < |script| && Upto(script, i, start, events)
    ensures var after := events + AttemptTrace(script[i]);
            if Last(script[i]) then Over(script, start, after, Succeeded(script[i]))
            else Upto(script, i + 1, start, after)
  {
    MadeAt(script, i);
    assert script[..i + 1][..i] == script[..i];
    Assoc(start, Trace(script[..i]), AttemptTrace(script[i]));
  }

  lemma TurnsDone(script: seq<Attempt>, start: seq<Event>, events: seq<Event>)
    requires Upto(script, |script|, start, events)
    ensures Over(script, start, events, false)
  {
    MadeAll(script);
    assert script[..|script|] == script;
  }

  lemma {:induction false} MadeAt(script: seq<Attempt>, i: nat)
    requires i < |script| && GoesOn(script, i)
    ensures if Last(script[i]) then Made(script) == script[..i + 1] else GoesOn(script, i + 1)
  {
    if i > 0 && Last(script[i]) {
      assert script[1..][i - 1] == script[i];
      assert forall j :: 0 <= j < i - 1 ==> script[1..][j] == script[j + 1];
      MadeAt(script[1..], i - 1);
      assert script[..i + 1] == [script[0]] + script[1..][..i];
    }
  }

  lemma {:induction false} MadeAll(script: seq<Attempt>)
    requires GoesOn(script, |script|)
    ensures Made(script) == script
  {
    if script != [] {
      MadeAll(script[1..]);
    }
  }

  // ---- one connection at a time, each given up once

  /** Where a caller stands between two events. */
  datatype Phase = Free | Has(c: ConnId) | ToPut(c: ConnId) | ToClose(c: ConnId)

  function Next(p: Phase, e: Event): Option<Phase> {
    match e
    case Got(c) => if p == Free then Some(Has(c)) else None
    case Left(c) => if p == Has(c) then Some(ToPut(c)) else None
    case Replied(c) => if p == Has(c) then Some(ToPut(c)) else None
    case Rejected(c) => if p == Has(c) then Some(ToClose(c)) else None
    case PutBack(c) => if p == ToPut(c) then Some(Free) else None
    case Closed(c) => if p == ToClose(c) then Some(Free) else None
  }

  function Follow(p: Phase, events: seq<Event>): Option<Phase> {
    if events == [] then Some(p) else
    var n := |events| - 1;
    match Follow(p, events[..n])
    case None => None
    case Some(q) => Next(q, events[n])
  }

  lemma {:induction false} FollowAppend(p: Phase, first: seq<Event>, q: Phase, second: seq<Event>)
    requires Follow(p, first) == Some(q)
    ensures Follow(p, first + second) == Follow(q, second)
    decreases |second|
  {
    if second == [] {
      assert first + second == first;
    } else {
      var n, all := |second| - 1, first + second;
      assert all[..|all| - 1] == first + second[..n];
      FollowAppend(p, first, q, second[..n]);
    }
  }

  lemma FollowSnoc(events: seq<Event>, more: seq<Event>)
    requires |more| <= 1 && Follow(Free, events).Some?
    ensures Follow(Free, events + more) ==
            if more == [] then Follow(Free, events) else Next(Follow(Free, events).value, more[0])
  {
    if more == [] {
      assert events + more == events;
    } else {
      assert (events + more)[..|events|] == events;
    }
  }

  lemma FollowThree(p: Phase, a: Event, b: Event, c: Event)
    requires Next(p, a).Some? && Next(Next(p, a).value, b).Some?
    ensures Follow(p, [a, b, c]) == Next(Next(Next(p, a).value, b).value, c)
  {
    assert [a, b, c][..2] == [a, b] && [a, b][..1] == [a] && [a][..0] == [];
    assert Follow(p, [a]) == Next(p, a);
    assert Follow(p, [a, b]) == Next(Next(p, a).value, b);
  }

  lemma AttemptFollows(a: Attempt)
    ensures Follow(Free, AttemptTrace(a)) == Some(Free)
  {
    var w := AttemptTrace(a);
    if a.Gets? { FollowThree(Free, w[0], w[1], w[2]); }
  }

  /** Whatever its attempts, invoke holds one connection at a time and ends holding none. */
  lemma {:induction false} InvokeFollows(attempts: seq<Attempt>)
    ensures Follow(Free, Trace(attempts)) == Some(Free)
  {
    if attempts != [] {
      var n := |attempts| - 1;
      InvokeFollows(attempts[..n]);
      AttemptFollows(attempts[n]);
      FollowAppend(Free, Trace(attempts[..n]), Free, AttemptTrace(attempts[n]));
    }
  }

  function GotTimes(events: seq<Event>, c: ConnId): nat {
    multiset(events)[Got(c)]
  }

  function Releases(events: seq<Event>, c: ConnId): nat {
    multiset(events)[PutBack(c)] + multiset(events)[Event.Closed(c)]
  }

  function InHand(p: Phase, c: ConnId): nat {
    if !p.Free? && p.c == c then 1 else 0
  }

  function Hit(e: Event, x: Event): nat {
    if e == x then 1 else 0
  }

  /** What one event does to the connection in hand. */
  lemma HandStep(p: Phase, e: Event, c: ConnId)
    requires Next(p, e).Some?
    ensures Hit(e, Got(c)) + InHand(p, c) == Hit(e, PutBack(c)) + Hit(e, Event.Closed(c)) + InHand(Next(p, e).value, c)
  {
  }

  lemma CountLast(events: seq<Event>, x: Event)
    requires events != []
    ensures multiset(events)[x] == multiset(events[..|events| - 1])[x] + Hit(events[|events| - 1], x)
  {
    assert events == events[..|events| - 1] + [events[|events| - 1]];
  }

  /** At every moment the connections got and not yet given up are the one in hand: so each is given up once. */
  lemma {:induction false} ReleasedOnce(events: seq<Event>, c: ConnId)
    requires Follow(Free, events).Some?
    ensures GotTimes(events, c) == Releases(events, c) + InHand(Follow(Free, events).value, c)
  {
    if events != [] {
      var n := |events| - 1;
      ReleasedOnce(events[..n], c);
      HandStep(Follow(Free, events[..n]).value, events[n], c);
      CountLast(events, Got(c));
      CountLast(events, PutBack(c));
      CountLast(events, Event.Closed(c));
    }
  }

  // ---- heartbeats

  /** A connection's status, as far as put and Close look at it. */
  class Conn {
    const id: ConnId
    var closed: bool

    constructor (id: ConnId)
      ensures this.id == id && !closed
    {
      this.id, closed := id, false;
    }

    method Close(log: Log)
      modifies this, log
      ensures closed
      ensures log.events == old(log.events) + if old(closed) then [] else [Event.Closed(id)]
    {
      if closed { return; }
      closed := true;
      log.Add(Event.Closed(id));
    }

    /** put leaves a closed connection alone. */
    method Put(log: Log)
      modifies log
      ensures log.events == old(log.events) + if closed then [] else [PutBack(id)]
    {
      if closed { return; }
      log.Add(PutBack(id));
    }
  }

  /** sendMsg: a call without a request cannot be marshalled; one with a request depends on the write. */
  method SendMsg(request: Option<bytes>, written: bool) returns (ok: bool)
    ensures ok <==> request.Some? && written
  {
    if request.None? { return false; }
    return written;
  }

  /** The events a method added. */
  ghost function Added(before: seq<Event>, after: seq<Event>): seq<Event>
    requires |before| <= |after|
  {
    after[|before|..]
  }

  /** The body of sendHeartbeat after get, for any call. The connection is given up once, by exactly one of Close
      and the deferred put, and it is closed exactly when it is unhealthy, the call has no request or the write
      fails. */
  method Beat(log: Log, conn: Conn, request: Option<bytes>, healthy: bool, written: bool)
    requires !conn.closed
    modifies log, conn
    ensures |old(log.events)| <= |log.events| && log.events[..|old(log.events)|] == old(log.events)
    ensures conn.closed <==> !healthy || request.None? || !written
    ensures GivenUp(Added(old(log.events), log.events), conn.id, conn.closed)
  {
    ghost var start := log.events;
    log.Add(Got(conn.id));
    if !healthy {
      log.Add(Rejected(conn.id));
      conn.Close(log);
      conn.Put(log);
      HeartbeatEvents(conn.id);
      assert Added(start, log.events) == [Got(conn.id), Rejected(conn.id), Event.Closed(conn.id)];
      return;
    }
    var ok := SendMsg(request, written);
    if !ok {
      log.Add(Rejected(conn.id));
      conn.Close(log);
    } else {
      log.Add(Left(conn.id));
    }
    conn.Put(log);
    HeartbeatEvents(conn.id);
    assert Added(start, log.events) ==
           if ok then [Got(conn.id), Left(conn.id), PutBack(conn.id)]
           else [Got(conn.id), Rejected(conn.id), Event.Closed(conn.id)];
  }

  /** sendHeartbeat: its call has no request, so the connection is closed, whatever its health and the network. */
  method Heartbeat(log: Log, conn: Conn, healthy: bool, written: bool)
    requires !conn.closed
    modifies log, conn
    ensures |old(log.events)| <= |log.events| && log.events[..|old(log.events)|] == old(log.events)
    ensures conn.closed
    ensures GivenUp(Added(old(log.events), log.events), conn.id, true)
  {
    Beat(log, conn, None, healthy, written);
  }

  /** Connection c was got once and given up once: closed and not put back, or put back and not closed. */
  ghost predicate GivenUp(events: seq<Event>, c: ConnId, closed: bool) {
    && Follow(Free, events) == Some(Free)
    && GotTimes(events, c) == 1 == Releases(events, c)
    && (closed <==> Event.Closed(c) in events) && (closed <==> PutBack(c) !in events)
  }

  lemma HeartbeatEvents(c: ConnId)
    ensures GivenUp([Got(c), Rejected(c), Event.Closed(c)], c, true)
    ensures GivenUp([Got(c), Left(c), PutBack(c)], c, false)
  {
    FollowThree(Free, Got(c), Rejected(c), Event.Closed(c));
    FollowThree(Free, Got(c), Left(c), PutBack(c));
  }

  // ---- every orderly history is a sequence of attempts

  /** Every way of taking and giving up connections, from none in hand to none in hand, is a sequence of attempts. */
  lemma {:induction false} OnlyAttempts(events: seq<Event>) returns (attempts: seq<Attempt>)
    requires Follow(Free, events) == Some(Free)
    ensures Trace(attempts) == events
    decreases |events|
  {
    if events == [] {
      attempts := [];
    } else {
      var c, fate := LastAttempt(events);
      var n := |events| - 3;
      var before := OnlyAttempts(events[..n]);
      attempts := before + [Gets(c, fate)];
      assert attempts[..|before|] == before;
    }
  }

  /** The last three events are one attempt. */
  lemma LastAttempt(events: seq<Event>) returns (c: ConnId, fate: Fate)
    requires Follow(Free, events) == Some(Free) && events != []
    ensures |events| >= 3 && Follow(Free, events[..|events| - 3]) == Some(Free)
    ensures events == events[..|events| - 3] + AttemptTrace(Gets(c, fate))
  {
    var n := |events| - 1;
    c := events[n].c;
    var u := events[..n];
    assert Follow(Free, u).Some? && !Follow(Free, u).value.Free?;
    var v := u[..n - 1];
    assert Follow(Free, v) == Some(Has(c));
    var w := v[..n - 2];
    assert Follow(Free, w) == Some(Free);
    assert w == events[..n - 2] && v[n - 2] == events[n - 2] && u[n - 1] == events[n - 1];
    fate := if events[n].Closed? then SendFails else if events[n - 1].Left? then BadMethod else ReceiveFails;
    assert events == events[..n - 2] + [events[n - 2], events[n - 1], events[n]];
  }
}
