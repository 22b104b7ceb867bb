/** What every step of the client pool keeps, and what follows for every run. */
module ClientSafety {
  import opened Results
  import opened Connections
  import opened ClientPool

  // ---- places

  /** The queue holds exactly the connections placed in it, once each. */
  ghost predicate Listed(q: seq<ConnId>, place: seq<Place>, p: Place) {
    && (forall i :: 0 <= i < |q| ==> q[i] < |place| && place[q[i]] == p)
    && (forall i, j :: 0 <= i < j < |q| ==> q[i] != q[j])
    && (forall c :: 0 <= c < |place| && place[c] == p ==> c in q)
  }

  ghost predicate HeldInv(threads: seq<PC>, place: seq<Place>) {
    && (forall t :: 0 <= t < |threads| && ConnOf(threads[t]).Some? ==>
          ConnOf(threads[t]).value < |place| && place[ConnOf(threads[t]).value] == HeldBy(t))
    && (forall c :: 0 <= c < |place| && place[c].HeldBy? ==>
          place[c].t < |threads| && ConnOf(threads[place[c].t]) == Some(c))
  }

  ghost predicate PlaceInv(s: State) {
    && |s.place| == |s.wires|
    && Listed(s.hot, s.place, InHot)
    && Listed(s.cold, s.place, InCold)
    && HeldInv(s.threads, s.place)
    && |s.hot| <= HotCap(s)
  }

  lemma ListedElsewhere(q: seq<ConnId>, place: seq<Place>, p: Place, c: ConnId, x: Place)
    requires Listed(q, place, p) && c < |place| && place[c] != p && x != p
    ensures Listed(q, place[c := x], p)
  {
  }

  lemma ListedPush(q: seq<ConnId>, place: seq<Place>, p: Place, c: ConnId)
    requires Listed(q, place, p) && c < |place| && place[c] != p
    ensures Listed(q + [c], place[c := p], p)
  {
    var q', place' := q + [c], place[c := p];
    forall d | 0 <= d < |place'| && place'[d] == p ensures d in q' {
      if d != c { assert d in q; }
    }
  }

  lemma ListedPopFirst(q: seq<ConnId>, place: seq<Place>, p: Place, x: Place)
    requires Listed(q, place, p) && q != [] && x != p
    ensures q[0] < |place| && Listed(q[1..], place[q[0] := x], p)
  {
    var place' := place[q[0] := x];
    forall d | 0 <= d < |place'| && place'[d] == p ensures d in q[1..] {
      assert d in q;
      var i :| 0 <= i < |q| && q[i] == d;
      assert q[1..][i - 1] == d;
    }
  }

  lemma ListedPopLast(q: seq<ConnId>, place: seq<Place>, p: Place, x: Place)
    requires Listed(q, place, p) && q != [] && x != p
    ensures var n := |q| - 1; q[n] < |place| && Listed(q[..n], place[q[n] := x], p)
  {
    var n := |q| - 1;
    var place' := place[q[n] := x];
    forall d | 0 <= d < |place'| && place'[d] == p ensures d in q[..n] {
      assert d in q;
      var i :| 0 <= i < |q| && q[i] == d;
      assert q[..n][i] == d;
    }
  }

  lemma ListedGrow(q: seq<ConnId>, place: seq<Place>, p: Place, x: Place)
    requires Listed(q, place, p)
    ensures x != p ==> Listed(q, place + [x], p)
    ensures x == p ==> Listed(q + [|place|], place + [x], p)
  {
    var place' := place + [x];
    forall d | 0 <= d < |place'| && place'[d] == p && d < |place| ensures d in q {
      assert place[d] == p;
    }
  }

  /** A thread that holds nothing takes c, or one that holds c moves on, keeps it or gives it up. */
  lemma HeldMove(threads: seq<PC>, place: seq<Place>, t: Tid, pc: PC, c: ConnId, x: Place)
    requires HeldInv(threads, place) && t < |threads| && c < |place|
    requires ConnOf(threads[t]) == Some(c) || (ConnOf(threads[t]) == None && !place[c].HeldBy?)
    requires if ConnOf(pc) == None then !x.HeldBy? else ConnOf(pc) == Some(c) && x == HeldBy(t)
    ensures HeldInv(threads[t := pc], place[c := x])
  {
  }

  /** A step that leaves a thread with what it had. */
  lemma HeldStay(threads: seq<PC>, place: seq<Place>, t: Tid, pc: PC)
    requires HeldInv(threads, place) && t < |threads| && ConnOf(pc) == ConnOf(threads[t])
    ensures HeldInv(threads[t := pc], place)
  {
  }

  lemma HeldGrow(threads: seq<PC>, place: seq<Place>, x: Place)
    requires HeldInv(threads, place) && !x.HeldBy?
    ensures HeldInv(threads, place + [x])
  {
  }

  lemma HeldNew(threads: seq<PC>, place: seq<Place>, t: Tid, pc: PC)
    requires HeldInv(threads, place) && t < |threads| && ConnOf(threads[t]) == None && ConnOf(pc) == Some(|place|)
    ensures HeldInv(threads[t := pc], place + [HeldBy(t)])
  {
  }

  lemma PlaceStay(s: State, t: Tid, pc: PC)
    requires PlaceInv(s) && t < |s.threads| && ConnOf(pc) == ConnOf(s.threads[t])
    ensures PlaceInv(SetPC(s, t, pc))
  {
    HeldStay(s.threads, s.place, t, pc);
  }

  /** A step of a thread moves that thread only. */
  ghost predicate MovesOne(s: State, a: Action)
    requires Enabled(s, a) && (Seeks(a) || Gives(a) || Calls(a))
  {
    var s' := Apply(s, a);
    a.t < |s.threads| == |s'.threads| && s'.threads == s.threads[a.t := s'.threads[a.t]]
  }

  lemma SeekMoves(s: State, a: Action)
    requires Enabled(s, a) && Seeks(a)
    ensures MovesOne(s, a) && ConnOf(s.threads[a.t]) == None && SeqOf(Apply(s, a).threads[a.t]) == None
  {
  }

  lemma GiveMoves(s: State, a: Action)
    requires Enabled(s, a) && Gives(a)
    ensures MovesOne(s, a) && SeqOf(Apply(s, a).threads[a.t]) == None
  {
  }

  lemma CallMoves(s: State, a: Action)
    requires Enabled(s, a) && Calls(a)
    ensures MovesOne(s, a) && ConnOf(Apply(s, a).threads[a.t]) == ConnOf(s.threads[a.t])
    ensures !a.Issue? && SeqOf(Apply(s, a).threads[a.t]).Some? ==>
            SeqOf(Apply(s, a).threads[a.t]) == SeqOf(s.threads[a.t])
    ensures Apply(s, a).threads[a.t].Issued? <==> a.Issue?
  {
  }

  lemma ThreadMoves(s: State, a: Action)
    requires Enabled(s, a) && (Seeks(a) || Gives(a) || Calls(a))
    ensures MovesOne(s, a)
  {
    if Seeks(a) { SeekMoves(s, a); } else if Gives(a) { GiveMoves(s, a); } else { CallMoves(s, a); }
  }

  /** Steps that neither move a connection nor add a thread. */
  predicate Local(a: Action) {
    a.Begin? || a.HotEmpty? || a.Timeout? || a.GiveUp? || a.LoadCount? || a.LockCreate? || a.CloseConn?
    || a.ReturnEarly? || a.SendFail? || a.Issue? || a.Write? || a.Receive? || a.ReceiveCorrupt? || a.ReceiveFail?
    || a.PutHotFull?
  }

  /** A local step changes one thread's position, not what it holds, and no queue, place or count. */
  lemma LocalStep(s: State, a: Action)
    requires Enabled(s, a) && Local(a)
    ensures var s' := Apply(s, a);
            && a.t < |s.threads| == |s'.threads| && s'.threads == s.threads[a.t := s'.threads[a.t]]
            && ConnOf(s'.threads[a.t]) == ConnOf(s.threads[a.t])
            && s'.hot == s.hot && s'.cold == s.cold && s'.place == s.place && |s'.wires| == |s.wires|
            && s'.created == s.created && s'.size == s.size && s'.prewarmed == s.prewarmed
            && s'.prewarmLeft == s.prewarmLeft
  {
  }

  lemma PlacePrewarm(s: State, ok: bool)
    requires PlaceInv(s) && Enabled(s, Prewarm(ok))
    ensures PlaceInv(Apply(s, Prewarm(ok)))
  {
    ListedGrow(s.hot, s.place, InHot, InCold);
    ListedGrow(s.cold, s.place, InCold, InCold);
    HeldGrow(s.threads, s.place, InCold);
  }

  lemma PlacePopHot(s: State, t: Tid, probe: Probe)
    requires PlaceInv(s) && Enabled(s, PopHot(t, probe))
    ensures PlaceInv(Apply(s, PopHot(t, probe)))
  {
    var c := s.hot[0];
    ListedPopFirst(s.hot, s.place, InHot, HeldBy(t));
    ListedElsewhere(s.cold, s.place, InCold, c, HeldBy(t));
    HeldMove(s.threads, s.place, t, Apply(s, PopHot(t, probe)).threads[t], c, HeldBy(t));
  }

  lemma PlacePopCold(s: State, t: Tid, probe: Probe)
    requires PlaceInv(s) && Enabled(s, PopCold(t, probe))
    ensures PlaceInv(Apply(s, PopCold(t, probe)))
  {
    if s.cold == [] {
      PlaceStay(s, t, Get(After(s.threads[t].p)));
    } else {
      var c := s.cold[|s.cold| - 1];
      ListedPopLast(s.cold, s.place, InCold, HeldBy(t));
      ListedElsewhere(s.hot, s.place, InHot, c, HeldBy(t));
      HeldMove(s.threads, s.place, t, Apply(s, PopCold(t, probe)).threads[t], c, HeldBy(t));
    }
  }

  lemma PlaceDialed(s: State, t: Tid, ok: bool)
    requires PlaceInv(s) && Enabled(s, Dialed(t, ok))
    ensures PlaceInv(Apply(s, Dialed(t, ok)))
  {
    if ok {
      ListedGrow(s.hot, s.place, InHot, HeldBy(t));
      ListedGrow(s.cold, s.place, InCold, HeldBy(t));
      HeldNew(s.threads, s.place, t, Held(|s.place|));
    } else {
      PlaceStay(s, t, Get(s.threads[t].p));
    }
  }

  lemma PlacePut(s: State, a: Action)
    requires PlaceInv(s) && Enabled(s, a) && (a.PutHot? || a.PutCold?)
    ensures PlaceInv(Apply(s, a))
  {
    var c := s.threads[a.t].c;
    if a.PutHot? {
      ListedPush(s.hot, s.place, InHot, c);
      ListedElsewhere(s.cold, s.place, InCold, c, InHot);
      HeldMove(s.threads, s.place, a.t, Start, c, InHot);
    } else {
      ListedPush(s.cold, s.place, InCold, c);
      ListedElsewhere(s.hot, s.place, InHot, c, InCold);
      HeldMove(s.threads, s.place, a.t, Start, c, InCold);
    }
  }

  lemma PlaceLocal(s: State, a: Action)
    requires PlaceInv(s) && Enabled(s, a) && Local(a)
    ensures PlaceInv(Apply(s, a))
  {
    LocalStep(s, a);
    HeldStay(s.threads, s.place, a.t, Apply(s, a).threads[a.t]);
  }

  lemma PlaceStep(s: State, a: Action)
    requires PlaceInv(s) && Enabled(s, a)
    ensures PlaceInv(Apply(s, a))
  {
    if Local(a) { PlaceLocal(s, a); }
    else if a.Prewarm? { PlacePrewarm(s, a.ok); }
    else if a.PopHot? { PlacePopHot(s, a.t, a.probe); }
    else if a.PopCold? { PlacePopCold(s, a.t, a.probe); }
    else if a.Dialed? { PlaceDialed(s, a.t, a.ok); }
    else if a.PutHot? || a.PutCold? { PlacePut(s, a); }
    else if a.Uncount? { GivenUp(s, a.t, Get(s.threads[a.t].p), Released); }
    else if a.Drop? { GivenUp(s, a.t, Start, Leaked); }
    else if a.Spawn? { assert HeldInv(s.threads + [Start], s.place); }
  }

  lemma GivenUp(s: State, t: Tid, pc: PC, x: Place)
    requires PlaceInv(s) && OnConn(s, t) && ConnOf(pc) == None && (x == Leaked || x == Released)
    ensures PlaceInv(Move(s, t, pc, ConnOf(s.threads[t]).value, x))
  {
    var c := ConnOf(s.threads[t]).value;
    ListedElsewhere(s.hot, s.place, InHot, c, x);
    ListedElsewhere(s.cold, s.place, InCold, c, x);
    HeldMove(s.threads, s.place, t, pc, c, x);
  }

  // ---- the count and the lock

  ghost function Live(place: seq<Place>): set<ConnId> {
    set c | 0 <= c < |place| && place[c] != Released
  }

  lemma LiveSame(place: seq<Place>, c: ConnId, x: Place)
    requires c < |place| && place[c] != Released && x != Released
    ensures Live(place[c := x]) == Live(place)
  {
  }

  lemma LiveLess(place: seq<Place>, c: ConnId)
    requires c < |place| && place[c] != Released
    ensures |Live(place[c := Released])| == |Live(place)| - 1
  {
    assert Live(place[c := Released]) == Live(place) - {c};
  }

  lemma LiveMore(place: seq<Place>, x: Place)
    requires x != Released
    ensures |Live(place + [x])| == |Live(place)| + 1
  {
    assert Live(place + [x]) == Live(place) + {|place|};
  }

  ghost predicate CountInv(s: State) {
    s.created == |Live(s.place)|
  }

  lemma CountStep(s: State, a: Action)
    requires PlaceInv(s) && CountInv(s) && Enabled(s, a)
    ensures CountInv(Apply(s, a))
  {
    if Local(a) { LocalStep(s, a); }
    else if a.Prewarm? { LiveMore(s.place, InCold); }
    else if a.Dialed? { LiveMore(s.place, HeldBy(a.t)); }
    else if a.PopHot? { LiveSame(s.place, s.hot[0], HeldBy(a.t)); }
    else if a.PopCold? {
      if s.cold != [] { LiveSame(s.place, s.cold[|s.cold| - 1], HeldBy(a.t)); }
    }
    else if a.Uncount? { LiveLess(s.place, s.threads[a.t].c); }
    else if a.Drop? { LiveSame(s.place, s.threads[a.t].c, Leaked); }
    else if a.PutHot? { LiveSame(s.place, s.threads[a.t].c, InHot); }
    else if a.PutCold? { LiveSame(s.place, s.threads[a.t].c, InCold); }
  }

  /** The lock belongs to the one thread that is dialling, and there is room for what it dials. */
  ghost predicate LockInv(s: State) {
    && (forall t :: 0 <= t < |s.threads| && s.threads[t].Dial? ==> s.lock == Some(t))
    && (s.lock.Some? ==> s.lock.value < |s.threads| && s.threads[s.lock.value].Dial? && s.created < s.size)
    && s.created <= s.size + s.prewarmed
    && s.prewarmed + s.prewarmLeft <= Quarter(s.size)
  }

  lemma LockLocal(s: State, a: Action)
    requires LockInv(s) && Enabled(s, a) && Local(a)
    ensures LockInv(Apply(s, a))
  {
    LocalStep(s, a);
    assert !s.threads[a.t].Dial?;
  }

  lemma LockStep(s: State, a: Action)
    requires LockInv(s) && Enabled(s, a)
    ensures LockInv(Apply(s, a))
  {
    if Local(a) { LockLocal(s, a); }
    else if Seeks(a) { LockSeek(s, a); }
    else if Gives(a) { LockGive(s, a); }
  }

  lemma LockSeek(s: State, a: Action)
    requires LockInv(s) && Enabled(s, a) && Seeks(a)
    ensures LockInv(Apply(s, a))
  {
    SeekMoves(s, a);
  }

  lemma LockGive(s: State, a: Action)
    requires LockInv(s) && Enabled(s, a) && Gives(a)
    ensures LockInv(Apply(s, a))
  {
    GiveMoves(s, a);
  }

  // ---- replies

  predicate Clean(w: Wire) { w.unanswered == {} && w.inbox == [] }

  predicate Awaiting(w: Wire, q: SeqNo) {
    (w.unanswered == {q} && w.inbox == []) || (w.unanswered == {} && w.inbox == [q])
  }

  /** The status a connection has in its place: so get never finds a queued connection closed, and put never
      drops a held one. */
  function StatusAt(p: Place, threads: seq<PC>): Status {
    match p
    case InHot => Idle
    case InCold => Idle
    case Leaked => Closed
    case Released => Closed
    case HeldBy(t) =>
      if t >= |threads| then Closed else
      match threads[t]
      case Uncounting(_, _) => Closed
      case Closing(_, _) => Idle
      case PuttingCold(_) => Idle
      case _ => InUse
  }

  /** While no receive has failed, a queued connection has nothing outstanding, and a held one nothing but the
      request its holder has sent. Later, that request is outstanding at least until the stream breaks. */
  predicate WireOk(w: Wire, p: Place, threads: seq<PC>) {
    && w.status == StatusAt(p, threads)
    && (w.intact ==> w.stream.Whole?)
    && (w.intact ==>
          match p
          case InHot => Clean(w)
          case InCold => Clean(w)
          case HeldBy(t) => t < |threads| && if threads[t].Sent? then Awaiting(w, threads[t].sent) else Clean(w)
          case _ => true)
    && (w.stream.Whole? && p.HeldBy? && p.t < |threads| && threads[p.t].Sent? ==> threads[p.t].sent in Outstanding(w))
  }

  ghost predicate WireInv(s: State) {
    |s.wires| == |s.place| && forall c :: 0 <= c < |s.wires| ==> WireOk(s.wires[c], s.place[c], s.threads)
  }

  /** Only connections held by t can be affected by a change of t's position. */
  lemma WireOthers(s: State, t: Tid, pc: PC, c: ConnId)
    requires PlaceInv(s) && WireInv(s) && t < |s.threads|
    requires ConnOf(s.threads[t]) == None || ConnOf(s.threads[t]) == Some(c)
    ensures forall d :: 0 <= d < |s.wires| && d != c ==> WireOk(s.wires[d], s.place[d], s.threads[t := pc])
  {
    forall d | 0 <= d < |s.wires| && d != c ensures WireOk(s.wires[d], s.place[d], s.threads[t := pc]) {
      assert WireOk(s.wires[d], s.place[d], s.threads);
    }
  }

  /** After a step that touches thread t and connection c only. */
  lemma WireAt(s: State, s': State, t: Tid, c: ConnId)
    requires PlaceInv(s) && WireInv(s) && t < |s.threads| && c < |s.wires|
    requires ConnOf(s.threads[t]) == None || ConnOf(s.threads[t]) == Some(c)
    requires TouchesOnly(s, s', t, c) && WireOk(s'.wires[c], s'.place[c], s'.threads)
    ensures WireInv(s')
  {
    WireOthers(s, t, s'.threads[t], c);
  }

  lemma WireGrow(s: State, s': State, t: Tid)
    requires PlaceInv(s) && WireInv(s) && t < |s.threads| && ConnOf(s.threads[t]) == None
    requires |s'.threads| == |s.threads| && s'.threads == s.threads[t := s'.threads[t]] && !s'.threads[t].Sent?
    requires |s'.wires| == |s.wires| + 1 && s'.wires[..|s.wires|] == s.wires
    requires s'.wires[|s.wires|] == NewWire.(status := InUse)
    requires s'.place == s.place + [HeldBy(t)] && s'.threads[t].Held?
    ensures WireInv(s')
  {
    WireOthers(s, t, s'.threads[t], |s.wires|);
    forall d | 0 <= d < |s'.wires| ensures WireOk(s'.wires[d], s'.place[d], s'.threads) {
      if d < |s.wires| { assert s'.wires[d] == s.wires[d] && s'.place[d] == s.place[d]; }
    }
  }

  lemma WireOfThread(s: State, t: Tid)
    requires PlaceInv(s) && WireInv(s) && OnConn(s, t)
    ensures var c := ConnOf(s.threads[t]).value; s.place[c] == HeldBy(t) && WireOk(s.wires[c], HeldBy(t), s.threads)
  {
  }

  /** Steps of a thread on the connection it holds. */
  predicate OnHeld(a: Action) {
    a.CloseConn? || a.Uncount? || a.ReturnEarly? || a.SendFail? || a.Issue? || a.Write? || a.Drop?
    || a.Receive? || a.ReceiveCorrupt? || a.ReceiveFail? || a.PutHot? || a.PutHotFull? || a.PutCold?
  }

  predicate TouchesOnly(s: State, s': State, t: Tid, c: ConnId) {
    && t < |s.threads| == |s'.threads| && s'.threads == s.threads[t := s'.threads[t]]
    && c < |s.wires| == |s'.wires| && s'.wires == s.wires[c := s'.wires[c]]
    && c < |s.place| == |s'.place| && s'.place == s.place[c := s'.place[c]]
  }

  lemma OnHeldShape(s: State, a: Action)
    requires Enabled(s, a) && OnHeld(a)
    ensures OnConn(s, a.t) && TouchesOnly(s, Apply(s, a), a.t, ConnOf(s.threads[a.t]).value)
  {
  }

  /** The connection the step was on, after the step. */
  ghost predicate HeldWireOk(s: State, a: Action)
    requires Enabled(s, a) && OnHeld(a)
  {
    var c, s' := ConnOf(s.threads[a.t]).value, Apply(s, a);
    c < |s'.wires| == |s'.place| && WireOk(s'.wires[c], s'.place[c], s'.threads)
  }

  lemma SendWire(s: State, a: Action)
    requires PlaceInv(s) && WireInv(s) && Enabled(s, a) && (a.ReturnEarly? || a.SendFail? || a.Issue? || a.Write?)
    ensures HeldWireOk(s, a)
  {
    WireOfThread(s, a.t);
  }

  lemma ReceiveWire(s: State, a: Action)
    requires PlaceInv(s) && WireInv(s) && Enabled(s, a) && (a.Receive? || a.ReceiveCorrupt? || a.ReceiveFail?)
    ensures HeldWireOk(s, a)
  {
    WireOfThread(s, a.t);
    ReceiveShape(s, a);
    ReadOk(s.wires[s.threads[a.t].c], a.t, s.threads, if a.ReceiveFail? then a.left else Dead);
  }

  lemma ReceiveShape(s: State, a: Action)
    requires Enabled(s, a) && (a.Receive? || a.ReceiveCorrupt? || a.ReceiveFail?)
    ensures var c, s' := s.threads[a.t].c, Apply(s, a);
            && (CanRead(s.wires[c]) || a.ReceiveFail?)
            && c < |s'.wires| && s'.place == s.place && s'.threads == s.threads[a.t := Putting(c)]
            && s'.wires[c] == if a.ReceiveFail? then Failed(s.wires[c], a.left) else Consumed(s.wires[c])
  {
  }

  lemma ReadOk(w: Wire, t: Tid, threads: seq<PC>, left: Stream)
    requires t < |threads| && threads[t].Sent? && WireOk(w, HeldBy(t), threads)
    ensures CanRead(w) ==> WireOk(Consumed(w), HeldBy(t), threads[t := Putting(threads[t].c)])
    ensures WireOk(Failed(w, left), HeldBy(t), threads[t := Putting(threads[t].c)])
  {
  }

  lemma CloseWire(s: State, a: Action)
    requires PlaceInv(s) && WireInv(s) && Enabled(s, a) && (a.CloseConn? || a.Uncount? || a.Drop?)
    ensures HeldWireOk(s, a)
  {
    WireOfThread(s, a.t);
  }

  lemma PutWire(s: State, a: Action)
    requires PlaceInv(s) && WireInv(s) && Enabled(s, a) && (a.PutHot? || a.PutHotFull? || a.PutCold?)
    ensures HeldWireOk(s, a)
  {
    var c := s.threads[a.t].c;
    WireOfThread(s, a.t);
    PutShape(s, a);
    PutOk(s.wires[c], a.t, s.threads);
  }

  /** A connection on its way back, and where it arrives. */
  lemma PutShape(s: State, a: Action)
    requires Enabled(s, a) && (a.PutHot? || a.PutHotFull? || a.PutCold?)
    ensures var c, s' := s.threads[a.t].c, Apply(s, a);
            && (s.threads[a.t].Putting? || s.threads[a.t].PuttingCold?)
            && c < |s'.wires| == |s'.place| && s'.threads == s.threads[a.t := s'.threads[a.t]]
            && s'.wires[c] == s.wires[c].(status := if a.PutCold? then s.wires[c].status else Idle)
            && (a.PutHot? ==> s'.place[c] == InHot)
            && (a.PutCold? ==> s'.place[c] == InCold && s.threads[a.t].PuttingCold?)
            && (a.PutHotFull? ==> s'.place[c] == s.place[c] && s'.threads[a.t] == PuttingCold(c))
  {
  }

  lemma PutOk(w: Wire, t: Tid, threads: seq<PC>)
    requires t < |threads| && (threads[t].Putting? || threads[t].PuttingCold?) && WireOk(w, HeldBy(t), threads)
    ensures forall others :: WireOk(w.(status := Idle), InHot, others) && WireOk(w.(status := Idle), InCold, others)
    ensures threads[t].PuttingCold? ==> w.status == Idle
    ensures WireOk(w.(status := Idle), HeldBy(t), threads[t := PuttingCold(threads[t].c)])
  {
  }

  lemma WireThread(s: State, a: Action)
    requires PlaceInv(s) && WireInv(s) && Enabled(s, a) && OnHeld(a)
    ensures WireInv(Apply(s, a))
  {
    OnHeldShape(s, a);
    if a.ReturnEarly? || a.SendFail? || a.Issue? || a.Write? { SendWire(s, a); }
    else if a.Receive? || a.ReceiveCorrupt? || a.ReceiveFail? { ReceiveWire(s, a); }
    else if a.CloseConn? || a.Uncount? || a.Drop? { CloseWire(s, a); }
    else { PutWire(s, a); }
    WireAt(s, Apply(s, a), a.t, ConnOf(s.threads[a.t]).value);
  }

  lemma WirePopHot(s: State, a: Action)
    requires PlaceInv(s) && WireInv(s) && Enabled(s, a) && a.PopHot?
    ensures WireInv(Apply(s, a))
  {
    var c := s.hot[0];
    assert WireOk(s.wires[c], s.place[c], s.threads);
    WireAt(s, Apply(s, a), a.t, c);
  }

  lemma WirePopCold(s: State, a: Action)
    requires PlaceInv(s) && WireInv(s) && Enabled(s, a) && a.PopCold? && s.cold != []
    ensures WireInv(Apply(s, a))
  {
    var c := s.cold[|s.cold| - 1];
    assert WireOk(s.wires[c], s.place[c], s.threads);
    WireAt(s, Apply(s, a), a.t, c);
  }

  lemma WireIdleThread(s: State, a: Action)
    requires PlaceInv(s) && WireInv(s) && Enabled(s, a)
    requires a.Begin? || a.HotEmpty? || a.Timeout? || a.GiveUp? || a.LoadCount? || a.LockCreate?
             || (a.Dialed? && !a.ok) || (a.PopCold? && s.cold == [])
    ensures WireInv(Apply(s, a))
  {
    WireOthers(s, a.t, Apply(s, a).threads[a.t], |s.wires|);
  }

  lemma WireAnswer(s: State, c: ConnId, q: SeqNo)
    requires PlaceInv(s) && WireInv(s) && Enabled(s, Answer(c, q))
    ensures WireInv(Apply(s, Answer(c, q)))
  {
    assert WireOk(s.wires[c], s.place[c], s.threads);
    var s' := Apply(s, Answer(c, q));
    assert WireOk(s'.wires[c], s'.place[c], s'.threads);
  }

  lemma WireRest(s: State, a: Action)
    requires PlaceInv(s) && WireInv(s) && Enabled(s, a) && (a.Spawn? || a.Prewarm?)
    ensures WireInv(Apply(s, a))
  {
    var s' := Apply(s, a);
    forall c | 0 <= c < |s'.wires| ensures WireOk(s'.wires[c], s'.place[c], s'.threads) {
      if c < |s.wires| { assert WireOk(s.wires[c], s.place[c], s.threads); }
    }
  }

  lemma WireStep(s: State, a: Action)
    requires PlaceInv(s) && WireInv(s) && Enabled(s, a)
    ensures WireInv(Apply(s, a))
  {
    if OnHeld(a) { WireThread(s, a); }
    else if a.Spawn? || a.Prewarm? { WireRest(s, a); }
    else if a.PopHot? { WirePopHot(s, a); }
    else if a.PopCold? && s.cold != [] { WirePopCold(s, a); }
    else if a.Dialed? && a.ok { WireGrow(s, Apply(s, a), a.t); }
    else if a.Answer? { WireAnswer(s, a.c, a.seqNo); }
    else { WireIdleThread(s, a); }
  }

  // ---- the call table

  function SeqOf(pc: PC): Option<SeqNo> {
    match pc
    case Issued(_, q) => Some(q)
    case Sent(_, q) => Some(q)
    case _ => None
  }

  /** Pending keys were issued; each number in use belongs to one thread, and its entry to that thread. */
  ghost predicate TableInv(s: State) {
    && (forall q :: q in s.pending ==> 1 <= q <= s.sequence)
    && (forall t :: 0 <= t < |s.threads| && SeqOf(s.threads[t]).Some? ==> SeqOk(s, t, SeqOf(s.threads[t]).value))
    && (forall t, u :: 0 <= t < u < |s.threads| && SeqOf(s.threads[t]).Some? ==>
          SeqOf(s.threads[t]) != SeqOf(s.threads[u]))
  }

  ghost predicate SeqOk(s: State, t: Tid, q: SeqNo) {
    1 <= q <= s.sequence && (q in s.pending ==> s.pending[q] == t)
  }

  /** Steps that only forget: the number of a thread, or pending entries. */
  lemma TableForget(s: State, s': State)
    requires TableInv(s) && s'.sequence == s.sequence
    requires |s.threads| <= |s'.threads|
    requires forall t :: 0 <= t < |s'.threads| && SeqOf(s'.threads[t]).Some? ==>
      t < |s.threads| && SeqOf(s'.threads[t]) == SeqOf(s.threads[t])
    requires forall q :: q in s'.pending ==> q in s.pending && s'.pending[q] == s.pending[q]
    ensures TableInv(s')
  {
    forall t | 0 <= t < |s'.threads| && SeqOf(s'.threads[t]).Some?
      ensures SeqOk(s', t, SeqOf(s'.threads[t]).value)
    {
      assert SeqOk(s, t, SeqOf(s.threads[t]).value);
    }
  }

  lemma TableIssue(s: State, t: Tid)
    requires TableInv(s) && Enabled(s, Issue(t))
    ensures TableInv(Apply(s, Issue(t)))
  {
    var s' := Apply(s, Issue(t));
    forall u | 0 <= u < |s'.threads| && SeqOf(s'.threads[u]).Some?
      ensures SeqOk(s', u, SeqOf(s'.threads[u]).value)
      ensures u != t ==> SeqOf(s'.threads[u]).value <= s.sequence
    {
      if u != t { assert SeqOk(s, u, SeqOf(s.threads[u]).value); }
    }
  }

  lemma ForgetShape(s: State, a: Action)
    requires Enabled(s, a) && !a.Issue?
    ensures var s' := Apply(s, a);
            && s'.sequence == s.sequence && |s.threads| <= |s'.threads|
            && (forall t :: 0 <= t < |s'.threads| && SeqOf(s'.threads[t]).Some? ==>
                  t < |s.threads| && SeqOf(s'.threads[t]) == SeqOf(s.threads[t]))
            && (forall q :: q in s'.pending ==> q in s.pending && s'.pending[q] == s.pending[q])
  {
    PendingShape(s, a);
    if Calls(a) || Gives(a) || Seeks(a) { NumberShape(s, a); }
  }

  lemma NumberShape(s: State, a: Action)
    requires Enabled(s, a) && !a.Issue? && (Calls(a) || Gives(a) || Seeks(a))
    ensures var s' := Apply(s, a);
            && a.t < |s.threads| == |s'.threads| && s'.threads == s.threads[a.t := s'.threads[a.t]]
            && (SeqOf(s'.threads[a.t]).Some? ==> SeqOf(s'.threads[a.t]) == SeqOf(s.threads[a.t]))
  {
    if Seeks(a) { SeekMoves(s, a); } else if Gives(a) { GiveMoves(s, a); } else { CallMoves(s, a); }
  }

  lemma PendingShape(s: State, a: Action)
    requires Enabled(s, a) && !a.Issue?
    ensures var s' := Apply(s, a);
            s'.sequence == s.sequence && forall q :: q in s'.pending ==> q in s.pending && s'.pending[q] == s.pending[q]
  {
  }

  lemma TableStep(s: State, a: Action)
    requires TableInv(s) && Enabled(s, a)
    ensures TableInv(Apply(s, a))
  {
    if a.Issue? {
      TableIssue(s, a.t);
    } else {
      ForgetShape(s, a);
      TableForget(s, Apply(s, a));
    }
  }

  // ---- what is outstanding

  /** Only issued numbers are outstanding. */
  ghost predicate BoundInv(s: State) {
    forall c, q :: 0 <= c < |s.wires| && q in Outstanding(s.wires[c]) ==> 1 <= q <= s.sequence
  }

  lemma ConsumedShrinks(w: Wire)
    ensures Outstanding(Consumed(w)) <= Outstanding(w)
  {
  }

  /** A call adds its own number to its connection and nothing else. */
  lemma BoundCall(s: State, a: Action)
    requires TableInv(s) && BoundInv(s) && Enabled(s, a) && Calls(a)
    ensures BoundInv(Apply(s, a))
  {
    var pc, s' := s.threads[a.t], Apply(s, a);
    if a.Write? { assert SeqOk(s, a.t, SeqOf(pc).value); }
    forall c, q | 0 <= c < |s'.wires| && q in Outstanding(s'.wires[c])
      ensures 1 <= q <= s'.sequence
    {
      CallAdds(s, a, c);
    }
  }

  lemma CallAdds(s: State, a: Action, c: ConnId)
    requires Enabled(s, a) && Calls(a) && c < |Apply(s, a).wires|
    ensures s.sequence <= Apply(s, a).sequence && c < |s.wires|
    ensures Outstanding(Apply(s, a).wires[c]) <=
            Outstanding(s.wires[c]) + if a.Write? then {s.threads[a.t].sent} else {}
  {
    ConsumedShrinks(s.wires[c]);
  }

  lemma BoundOther(s: State, a: Action)
    requires BoundInv(s) && Enabled(s, a) && !Calls(a)
    ensures BoundInv(Apply(s, a))
  {
    var s' := Apply(s, a);
    forall c, q | 0 <= c < |s'.wires| && q in Outstanding(s'.wires[c])
      ensures 1 <= q <= s'.sequence
    {
      SameOutstanding(s, a, c);
    }
  }

  lemma SameOutstanding(s: State, a: Action, c: ConnId)
    requires Enabled(s, a) && !Calls(a) && c < |Apply(s, a).wires|
    ensures Apply(s, a).sequence == s.sequence
    ensures Outstanding(Apply(s, a).wires[c]) == if c < |s.wires| then Outstanding(s.wires[c]) else {}
  {
    if a.Answer? {
      AnswerMoves(s, a.c, a.seqNo, c);
    } else {
      SameContents(s, a, c);
    }
  }

  lemma AnswerMoves(s: State, c: ConnId, q: SeqNo, d: ConnId)
    requires Enabled(s, Answer(c, q)) && d < |s.wires|
    ensures Outstanding(Apply(s, Answer(c, q)).wires[d]) == Outstanding(s.wires[d])
  {
    assert forall x :: x in s.wires[c].inbox + [q] <==> x in s.wires[c].inbox || x == q;
  }

  /** Steps that leave what is on every wire. */
  lemma SameContents(s: State, a: Action, c: ConnId)
    requires Enabled(s, a) && !Calls(a) && !a.Answer? && c < |Apply(s, a).wires|
    ensures Apply(s, a).sequence == s.sequence
    ensures var w := Apply(s, a).wires[c];
            if c < |s.wires| then w.unanswered == s.wires[c].unanswered && w.inbox == s.wires[c].inbox
            else w.unanswered == {} && w.inbox == []
  {
    if Gives(a) { GiveContents(s, a, c); }
    else if Seeks(a) { SeekContents(s, a, c); }
  }

  lemma GiveContents(s: State, a: Action, c: ConnId)
    requires Enabled(s, a) && Gives(a) && c < |Apply(s, a).wires|
    ensures Apply(s, a).sequence == s.sequence && c < |s.wires|
    ensures var w := Apply(s, a).wires[c]; w.unanswered == s.wires[c].unanswered && w.inbox == s.wires[c].inbox
  {
  }

  lemma SeekContents(s: State, a: Action, c: ConnId)
    requires Enabled(s, a) && Seeks(a) && c < |Apply(s, a).wires|
    ensures Apply(s, a).sequence == s.sequence
    ensures var w := Apply(s, a).wires[c];
            if c < |s.wires| then w.unanswered == s.wires[c].unanswered && w.inbox == s.wires[c].inbox
            else w.unanswered == {} && w.inbox == []
  {
  }

  // ---- the replies returned

  /** Every invoke on a connection none of whose receives had failed returned the reply to its own request. */
  ghost predicate LogInv(s: State) {
    forall i :: 0 <= i < |s.log| && s.log[i].intact ==> s.log[i].got == s.log[i].sent && s.log[i].owner == s.log[i].t
  }

  lemma LogStep(s: State, a: Action)
    requires PlaceInv(s) && WireInv(s) && TableInv(s) && LogInv(s) && Enabled(s, a)
    ensures LogInv(Apply(s, a))
  {
    if a.Receive? {
      WireOfThread(s, a.t);
      assert SeqOk(s, a.t, SeqOf(s.threads[a.t]).value);
    } else {
      LogUnchanged(s, a);
    }
  }

  lemma LogUnchanged(s: State, a: Action)
    requires Enabled(s, a) && !a.Receive?
    ensures Apply(s, a).log == s.log
  {
  }

  // ---- all of it, on every run

  ghost predicate Inv(s: State) {
    PlaceInv(s) && CountInv(s) && LockInv(s) && WireInv(s) && TableInv(s) && BoundInv(s) && LogInv(s)
  }

  lemma InvInit(size: nat)
    ensures Inv(Init(size))
  {
    assert Live([]) == {};
  }

  lemma InvStep(s: State, a: Action)
    requires Inv(s) && Enabled(s, a)
    ensures Inv(Apply(s, a)) && Apply(s, a).size == s.size
  {
    PlaceStep(s, a);
    CountStep(s, a);
    LockStep(s, a);
    WireStep(s, a);
    TableStep(s, a);
    if Calls(a) { BoundCall(s, a); } else { BoundOther(s, a); }
    LogStep(s, a);
    SizeKept(s, a);
  }

  lemma SizeKept(s: State, a: Action)
    requires Enabled(s, a)
    ensures Apply(s, a).size == s.size
  {
  }

  /** The last step of a run. */
  lemma LastStep(s: State, actions: seq<Action>) returns (r: State, a: Action)
    requires actions != [] && RunFrom(s, actions).Some?
    ensures var n := |actions| - 1;
            && a == actions[n] && RunFrom(s, actions[..n]) == Some(r)
            && Enabled(r, a) && RunFrom(s, actions) == Some(Apply(r, a))
  {
    var n := |actions| - 1;
    r, a := RunFrom(s, actions[..n]).value, actions[n];
  }

  lemma {:induction false} InvRunFrom(s: State, actions: seq<Action>)
    requires Inv(s) && RunFrom(s, actions).Some?
    ensures Inv(RunFrom(s, actions).value) && RunFrom(s, actions).value.size == s.size
  {
    if actions != [] {
      var r, a := LastStep(s, actions);
      InvRunFrom(s, actions[..|actions| - 1]);
      InvStep(r, a);
    }
  }

  lemma InvRun(size: nat, actions: seq<Action>)
    requires Run(size, actions).Some?
    ensures Inv(Run(size, actions).value) && Run(size, actions).value.size == size
  {
    InvInit(size);
    InvRunFrom(Init(size), actions);
  }
}
