/** When callers can never dial again. A caller that closes its connection after a failed send leaves it counted
    (call.go, client.go), so such connections use up the pool for good. */
module ClientStarvation {
  import opened Results
  import opened Connections
  import opened ClientPool
  import opened ClientSafety
  import opened ClientTheorems
  import opened ClientDrive

  /** Closed without release, or about to be. */
  predicate IsLost(place: seq<Place>, threads: seq<PC>, c: ConnId)
    requires c < |place|
  {
    place[c] == Leaked || (place[c].HeldBy? && place[c].t < |threads| && threads[place[c].t].Doomed?)
  }

  ghost function Lost(s: State): set<ConnId> {
    set c | 0 <= c < |s.place| && IsLost(s.place, s.threads, c)
  }

  predicate FailsSend(a: Action) { a.SendFail? || (a.Write? && !a.ok) }

  // ---- lost connections stay lost

  /** A change of one thread, neither before nor after about to close, and of places that are not lost. */
  lemma LostSame(place: seq<Place>, threads: seq<PC>, place': seq<Place>, t: Tid, pc: PC, c: ConnId)
    requires t < |threads| && !threads[t].Doomed? && !pc.Doomed? && c < |place'|
    requires if c < |place| then place'[c] == place[c] || (!IsLost(place, threads, c) && place'[c] == HeldBy(t))
             else place'[c] == HeldBy(t)
    ensures IsLost(place', threads[t := pc], c) <==> c < |place| && IsLost(place, threads, c)
  {
  }

  /** What a thread that seeks may do to the place of a connection: take it out of a queue, or dial it. */
  ghost predicate Taken(s: State, a: Action, c: ConnId)
    requires Enabled(s, a) && Seeks(a) && c < |Apply(s, a).place|
  {
    var p := Apply(s, a).place[c];
    if c < |s.place| then p == s.place[c] || (!IsLost(s.place, s.threads, c) && p == HeldBy(a.t)) else p == HeldBy(a.t)
  }

  lemma PopTakes(s: State, a: Action, c: ConnId)
    requires PlaceInv(s) && Enabled(s, a) && (a.PopHot? || a.PopCold?) && c < |Apply(s, a).place|
    ensures Taken(s, a, c)
  {
  }

  lemma SeekTakes(s: State, a: Action, c: ConnId)
    requires PlaceInv(s) && Enabled(s, a) && Seeks(a) && c < |Apply(s, a).place|
    ensures Taken(s, a, c)
  {
    if a.PopHot? || a.PopCold? { PopTakes(s, a, c); }
  }

  lemma NotDoomed(s: State, a: Action)
    requires Enabled(s, a) && Seeks(a)
    ensures MovesOne(s, a) && !s.threads[a.t].Doomed? && !Apply(s, a).threads[a.t].Doomed?
  {
    SeekMoves(s, a);
  }

  lemma LostSeek(s: State, a: Action, c: ConnId)
    requires PlaceInv(s) && Enabled(s, a) && Seeks(a) && c < |Apply(s, a).place|
    ensures IsLost(Apply(s, a).place, Apply(s, a).threads, c) <==> c < |s.place| && IsLost(s.place, s.threads, c)
  {
    var s' := Apply(s, a);
    SeekTakes(s, a, c);
    NotDoomed(s, a);
    LostSame(s.place, s.threads, s'.place, a.t, s'.threads[a.t], c);
  }

  lemma LostGive(s: State, a: Action, c: ConnId)
    requires PlaceInv(s) && Enabled(s, a) && Gives(a) && c < |s.place|
    ensures c < |Apply(s, a).place|
    ensures IsLost(Apply(s, a).place, Apply(s, a).threads, c) <==> IsLost(s.place, s.threads, c)
  {
  }

  lemma LostCall(s: State, a: Action, c: ConnId)
    requires PlaceInv(s) && Enabled(s, a) && Calls(a) && c < |s.place|
    ensures c < |Apply(s, a).place|
    ensures IsLost(Apply(s, a).place, Apply(s, a).threads, c) <==>
            IsLost(s.place, s.threads, c) || (FailsSend(a) && c == s.threads[a.t].c)
  {
    CallShape(s, a);
  }

  lemma CallShape(s: State, a: Action)
    requires Enabled(s, a) && Calls(a)
    ensures var s' := Apply(s, a);
            && OnConn(s, a.t) && |s'.threads| == |s.threads| && s'.threads == s.threads[a.t := s'.threads[a.t]]
            && s'.place == s.place && !s.threads[a.t].Doomed? && (s'.threads[a.t].Doomed? <==> FailsSend(a))
            && ConnOf(s.threads[a.t]) == Some(s.threads[a.t].c)
  {
  }

  lemma LostRest(s: State, a: Action, c: ConnId)
    requires PlaceInv(s) && Enabled(s, a) && !Seeks(a) && !Gives(a) && !Calls(a) && c < |Apply(s, a).place|
    ensures IsLost(Apply(s, a).place, Apply(s, a).threads, c) <==> c < |s.place| && IsLost(s.place, s.threads, c)
  {
  }

  /** What one step adds to the lost connections. */
  function NewlyLost(s: State, a: Action): set<ConnId>
    requires Enabled(s, a)
  {
    if FailsSend(a) then {s.threads[a.t].c} else {}
  }

  lemma LostByGroup(s: State, a: Action, c: ConnId)
    requires PlaceInv(s) && Enabled(s, a) && c < |Apply(s, a).place|
    ensures IsLost(Apply(s, a).place, Apply(s, a).threads, c) <==>
            (c < |s.place| && IsLost(s.place, s.threads, c)) || (FailsSend(a) && c == s.threads[a.t].c)
  {
    if Seeks(a) { LostSeek(s, a, c); }
    else if Gives(a) { PlacesKept(s, a); LostGive(s, a, c); }
    else if Calls(a) { PlacesKept(s, a); LostCall(s, a, c); }
    else { LostRest(s, a, c); }
  }

  lemma LostAt(s: State, a: Action, c: ConnId)
    requires PlaceInv(s) && Enabled(s, a)
    ensures c in Lost(Apply(s, a)) <==> c in Lost(s) + NewlyLost(s, a)
  {
    if c < |Apply(s, a).place| { LostByGroup(s, a, c); } else { PlacesGrow(s, a); }
  }

  lemma PlacesKept(s: State, a: Action)
    requires Enabled(s, a) && (Gives(a) || Calls(a))
    ensures |Apply(s, a).place| == |s.place|
  {
  }

  lemma PlacesGrow(s: State, a: Action)
    requires Enabled(s, a)
    ensures |s.place| <= |Apply(s, a).place|
    ensures FailsSend(a) ==> s.threads[a.t].c < |s.place|
  {
    if Gives(a) || Calls(a) { PlacesKept(s, a); }
  }

  /** A failed send adds the sender's connection; nothing else changes which connections are lost. */
  lemma LostStep(s: State, a: Action)
    requires PlaceInv(s) && Enabled(s, a)
    ensures Lost(Apply(s, a)) == Lost(s) + NewlyLost(s, a)
  {
    forall c: ConnId
      ensures c in Lost(Apply(s, a)) <==> c in Lost(s) + NewlyLost(s, a)
    {
      LostAt(s, a, c);
    }
  }

  // ---- once size connections are lost

  predicate Dials(a: Action) { a.Dialed? && a.ok }

  lemma LostAreCounted(s: State)
    requires CountInv(s)
    ensures |Lost(s)| <= s.created
  {
    SubsetSize(Lost(s), Live(s.place));
  }

  lemma SubsetSize(a: set<ConnId>, b: set<ConnId>)
    requires a <= b
    ensures |a| <= |b|
  {
    assert b == a + (b - a);
  }

  lemma NoRoomNoDial(s: State, a: Action)
    requires CountInv(s) && LockInv(s) && Enabled(s, a) && |Lost(s)| >= s.size
    ensures !Dials(a)
  {
    LostAreCounted(s);
  }

  /** No continuation lets a caller dial. */
  ghost predicate Starved(s: State) {
    forall more, i :: RunFrom(s, more).Some? && 0 <= i < |more| ==> !Dials(more[i])
  }

  lemma {:induction false} LostForGood(s: State, more: seq<Action>)
    requires Inv(s) && |Lost(s)| >= s.size && RunFrom(s, more).Some?
    ensures |Lost(RunFrom(s, more).value)| >= s.size
    decreases |more|
  {
    if more != [] {
      var r, a := LastStep(s, more);
      LostForGood(s, more[..|more| - 1]);
      InvRunFrom(s, more[..|more| - 1]);
      StarvedStep(r, a);
    }
  }

  /** A run's first steps are a run. */
  lemma {:induction false} RunPrefix(s: State, actions: seq<Action>, i: nat) returns (r: State)
    requires RunFrom(s, actions).Some? && i < |actions|
    ensures RunFrom(s, actions[..i]) == Some(r) && Enabled(r, actions[i])
    decreases |actions|
  {
    var n := |actions| - 1;
    var q, a := LastStep(s, actions);
    if i == n {
      r := q;
    } else {
      r := RunPrefix(s, actions[..n], i);
      assert actions[..n][..i] == actions[..i];
    }
  }

  lemma NeverDials(s: State, more: seq<Action>, i: nat)
    requires Inv(s) && |Lost(s)| >= s.size && RunFrom(s, more).Some? && i < |more|
    ensures !Dials(more[i])
  {
    var r := RunPrefix(s, more, i);
    NoDialAfter(s, more[..i], r, more[i]);
  }

  lemma NoDialAfter(s: State, more: seq<Action>, r: State, a: Action)
    requires Inv(s) && |Lost(s)| >= s.size && RunFrom(s, more) == Some(r) && Enabled(r, a)
    ensures !Dials(a)
  {
    LostForGood(s, more);
    InvRunFrom(s, more);
    NoRoomNoDial(r, a);
  }

  lemma StarvedStep(s: State, a: Action)
    requires Inv(s) && Enabled(s, a) && |Lost(s)| >= s.size
    ensures !Dials(a) && |Lost(Apply(s, a))| >= s.size
  {
    NoRoomNoDial(s, a);
    LostStep(s, a);
    SubsetSize(Lost(s), Lost(s) + NewlyLost(s, a));
  }

  // ---- while fewer are lost

  /** A thread takes a step it is ready for; one that fails no send loses no connection. */
  lemma GoOn(s0: State, before: seq<Action>, s: State, u: Tid, a: Action) returns (more: seq<Action>, s': State)
    requires Reached(s0, before, s) && u < |s.threads| && Ready(Of(s, u), a) && a.t == u && !a.SendFail? && !a.Dialed?
    ensures Reached(s0, more, s') && u < |s'.threads| && Of(s', u) == Effect(Of(s, u), a) && Lost(s') == Lost(s)
  {
    more, s' := Drive(s0, before, s, u, a);
    InvRunFrom(s0, before);
    LostStep(s, a);
    assert Lost(s) + {} == Lost(s);
  }

  /** A new caller arrives. */
  lemma Enter(s0: State, before: seq<Action>, s: State) returns (more: seq<Action>, s': State, u: Tid)
    requires Reached(s0, before, s)
    ensures Reached(s0, more, s') && Lost(s') == Lost(s)
    ensures u < |s'.threads| && Of(s', u) == Brief(Get(Hot1), s.hot, s.cold, s.created, s.lock, s.size, s.sequence)
  {
    more, s', u := Arrive(s0, before, s);
    InvRunFrom(s0, before);
    LostStep(s, Spawn);
    assert Lost(s) + {} == Lost(s);
    more, s' := GoOn(s0, more, s', u, Begin(u));
  }

  /** An unhealthy connection is closed and uncounted. */
  lemma Discard(s0: State, before: seq<Action>, s: State, u: Tid) returns (more: seq<Action>, s': State)
    requires Reached(s0, before, s) && u < |s.threads| && Of(s, u).pc.Closing?
    ensures Reached(s0, more, s') && Lost(s') == Lost(s) && u < |s'.threads|
    ensures var b := Of(s, u); Of(s', u) == b.(pc := Get(b.pc.p), created := b.created - 1)
  {
    more, s' := GoOn(s0, before, s, u, CloseConn(u));
    more, s' := GoOn(s0, more, s', u, Uncount(u));
  }

  /** A caller at the head of get finds what is in the hot queue unhealthy. */
  lemma PassHot(s0: State, before: seq<Action>, s: State, u: Tid) returns (more: seq<Action>, s': State)
    requires Reached(s0, before, s) && u < |s.threads| && Of(s, u).pc == Get(Hot1)
    ensures Reached(s0, more, s') && Lost(s') == Lost(s) && u < |s'.threads|
    ensures var b := Of(s, u);
            Of(s', u) ==
            if b.hot == [] then b.(pc := Get(Load1))
            else b.(pc := Get(Load1), hot := b.hot[1..], created := b.created - 1)
  {
    if Of(s, u).hot == [] {
      more, s' := GoOn(s0, before, s, u, HotEmpty(u));
    } else {
      more, s' := GoOn(s0, before, s, u, PopHot(u, Unhealthy));
      more, s' := Discard(s0, more, s', u);
    }
  }

  /** With room, a new caller dials. */
  lemma DialNow(s0: State, before: seq<Action>, s: State) returns (more: seq<Action>)
    requires Reached(s0, before, s) && s.lock == None && s.created < s.size
    ensures RunFrom(s0, more).Some? && more != [] && Dials(more[|more| - 1])
  {
    var s', u;
    more, s', u := Enter(s0, before, s);
    more, s' := PassHot(s0, more, s', u);
    more, s' := GoOn(s0, more, s', u, LoadCount(u));
    more, s' := GoOn(s0, more, s', u, LockCreate(u));
    more, s' := Drive(s0, more, s', u, Dialed(u, true));
  }

  /** At the limit, a new caller takes a queued connection, finds it unhealthy and uncounts it. */
  lemma FreeQueued(s0: State, before: seq<Action>, s: State) returns (more: seq<Action>, s': State)
    requires Reached(s0, before, s) && s.lock == None && s.created >= s.size && (s.hot != [] || s.cold != [])
    ensures Reached(s0, more, s') && Lost(s') == Lost(s)
    ensures s'.lock == None && s'.size == s.size && s'.created == s.created - 1
  {
    var u;
    more, s', u := Enter(s0, before, s);
    more, s' := PassHot(s0, more, s', u);
    if s.hot == [] {
      more, s' := GoOn(s0, more, s', u, LoadCount(u));
      more, s' := GoOn(s0, more, s', u, PopCold(u, Unhealthy));
      more, s' := Discard(s0, more, s', u);
    }
  }

  /** A connection is uncounted, or one is queued. */
  predicate Freed(b: Brief, b': Brief) {
    && b'.lock == b.lock && b'.size == b.size
    && (b'.created == b.created - 1 || (b'.created == b.created && (b'.hot != [] || b'.cold != [])))
  }

  lemma PutBack(s0: State, before: seq<Action>, s: State, t: Tid) returns (more: seq<Action>, s': State)
    requires Reached(s0, before, s) && t < |s.threads| && Of(s, t).lock == None
    requires Of(s, t).pc.Putting? || Of(s, t).pc.PuttingCold?
    ensures Reached(s0, more, s') && Lost(s') == Lost(s) && t < |s'.threads| && Freed(Of(s, t), Of(s', t))
  {
    var b := Of(s, t);
    if b.pc.PuttingCold? {
      more, s' := GoOn(s0, before, s, t, PutCold(t));
    } else if |b.hot| < Max1(b.size / 2) {
      more, s' := GoOn(s0, before, s, t, PutHot(t));
    } else {
      more, s' := GoOn(s0, before, s, t, PutHotFull(t));
      more, s' := GoOn(s0, more, s', t, PutCold(t));
    }
  }

  /** A call comes to its end without losing its connection. */
  lemma EndCall(s0: State, before: seq<Action>, s: State, t: Tid) returns (more: seq<Action>, s': State)
    requires Reached(s0, before, s) && t < |s.threads|
    requires Of(s, t).pc.Held? || Of(s, t).pc.Issued? || Of(s, t).pc.Sent?
    ensures Reached(s0, more, s') && Lost(s') == Lost(s) && t < |s'.threads|
    ensures Of(s', t) == Of(s, t).(pc := Putting(Of(s, t).pc.c))
  {
    if Of(s, t).pc.Held? {
      more, s' := GoOn(s0, before, s, t, ReturnEarly(t));
    } else if Of(s, t).pc.Issued? {
      more, s' := GoOn(s0, before, s, t, Write(t, true));
      more, s' := GoOn(s0, more, s', t, ReceiveFail(t, Dead));
    } else {
      more, s' := GoOn(s0, before, s, t, ReceiveFail(t, Dead));
    }
  }

  /** A thread that is not about to close its connection gives it up. */
  lemma Settle(s0: State, before: seq<Action>, s: State, t: Tid) returns (more: seq<Action>, s': State)
    requires Reached(s0, before, s) && t < |s.threads| && Of(s, t).lock == None
    requires ConnOf(Of(s, t).pc).Some? && !Of(s, t).pc.Doomed?
    ensures Reached(s0, more, s') && Lost(s') == Lost(s) && t < |s'.threads| && Freed(Of(s, t), Of(s', t))
  {
    match Of(s, t).pc
    case Closing(_, _) => more, s' := Discard(s0, before, s, t);
    case Uncounting(_, _) => more, s' := GoOn(s0, before, s, t, Uncount(t));
    case Putting(_) => more, s' := PutBack(s0, before, s, t);
    case PuttingCold(_) => more, s' := PutBack(s0, before, s, t);
    case _ =>
      more, s' := EndCall(s0, before, s, t);
      more, s' := PutBack(s0, more, s', t);
  }

  /** With queues empty and fewer lost than counted, some thread holds a connection it may still give back. */
  lemma SomeHolder(s: State) returns (t: Tid)
    requires PlaceInv(s) && CountInv(s) && s.hot == [] && s.cold == [] && |Lost(s)| < s.created
    ensures t < |s.threads| && ConnOf(s.threads[t]).Some? && !s.threads[t].Doomed?
  {
    if Live(s.place) <= Lost(s) {
      SubsetSize(Live(s.place), Lost(s));
    }
    var c :| c in Live(s.place) && c !in Lost(s);
    t := s.place[c].t;
  }

  /** One connection less is counted. */
  lemma MakeRoomOnce(s0: State, before: seq<Action>, s: State) returns (more: seq<Action>, s': State)
    requires Reached(s0, before, s) && s.lock == None && |Lost(s)| < s.size <= s.created
    ensures Reached(s0, more, s') && Lost(s') == Lost(s)
    ensures s'.lock == None && s'.size == s.size && s'.created == s.created - 1
  {
    more, s' := before, s;
    if s.hot == [] && s.cold == [] {
      InvRunFrom(s0, before);
      var t := SomeHolder(s);
      more, s' := Settle(s0, before, s, t);
      assert Freed(Of(s, t), Of(s', t));
    }
    if s'.created == s.created {
      more, s' := FreeQueued(s0, more, s');
    }
  }

  /** Down to the limit and below, one connection after another. */
  lemma {:induction false} MakeRoom(s0: State, before: seq<Action>, s: State, k: nat)
    returns (more: seq<Action>, s': State)
    requires Reached(s0, before, s) && s.lock == None && |Lost(s)| < s.size && s.created - s.size < k
    ensures Reached(s0, more, s') && s'.lock == None && s'.created < s'.size
    decreases k
  {
    if s.created < s.size {
      more, s' := before, s;
    } else {
      more, s' := MakeRoomOnce(s0, before, s);
      more, s' := MakeRoom(s0, more, s', k - 1);
    }
  }

  lemma CanDial(s: State) returns (more: seq<Action>)
    requires Inv(s) && |Lost(s)| < s.size
    ensures RunFrom(s, more).Some? && more != [] && Dials(more[|more| - 1])
  {
    var s';
    if s.lock.Some? {
      more, s' := Drive(s, [], s, s.lock.value, Dialed(s.lock.value, true));
    } else {
      more, s' := MakeRoom(s, [], s, if s.created < s.size then 0 else s.created - s.size + 1);
      more := DialNow(s, more, s');
    }
  }

  /** Callers can never dial again exactly when `size` connections are closed without release or held by a
      caller whose send has failed. */
  lemma StarvationExactly(size: nat, actions: seq<Action>)
    requires Run(size, actions).Some?
    ensures Starved(Run(size, actions).value) <==> |Lost(Run(size, actions).value)| >= size
  {
    InvRun(size, actions);
    var s := Run(size, actions).value;
    if |Lost(s)| >= size {
      forall more, i | RunFrom(s, more).Some? && 0 <= i < |more|
        ensures !Dials(more[i])
      {
        NeverDials(s, more, i);
      }
    } else {
      var more := CanDial(s);
    }
  }

  /** A heartbeat always closes the connection it gets and never gives its slot back, so `size` heartbeats
      are enough. */
  lemma HeartbeatsStarve(size: nat) returns (actions: seq<Action>)
    ensures Run(size, actions).Some? && Starved(Run(size, actions).value)
  {
    actions := DialMany(size, size, true);
    var s := Run(size, actions).value;
    RangeSize(Lost(s), size);
    StarvationExactly(size, actions);
  }

  lemma {:induction false} RangeSize(cs: set<ConnId>, n: nat)
    requires forall c :: c in cs <==> 0 <= c < n
    ensures |cs| == n
    decreases n
  {
    if n > 0 {
      RangeSize(cs - {n - 1}, n - 1);
    } else {
      assert cs == {};
    }
  }
}
