/** Which reply a caller gets, over every run and every continuation. */
module ClientReplies {
  import opened Results
  import opened Connections
  import opened ClientPool
  import opened ClientSafety
  import opened ClientTheorems

  /** Reply matching: in any interleaving, an invoke that succeeds on a connection none of whose receives had
      failed returns the reply to the request it sent. */
  lemma ReplyMatching(size: nat, actions: seq<Action>, i: nat)
    requires Run(size, actions).Some? && i < |Run(size, actions).value.log|
    ensures var e := Run(size, actions).value.log[i]; e.intact ==> e.got == e.sent && e.owner == e.t
  {
    InvRun(size, actions);
  }

  ghost predicate NoneAbandoned(actions: seq<Action>) {
    forall i :: 0 <= i < |actions| ==> !actions[i].ReceiveFail?
  }

  ghost predicate AllIntact(s: State) {
    && (forall c :: 0 <= c < |s.wires| ==> s.wires[c].intact)
    && (forall i :: 0 <= i < |s.log| ==> s.log[i].intact)
  }

  lemma IntactStep(s: State, a: Action)
    requires AllIntact(s) && Enabled(s, a) && !a.ReceiveFail?
    ensures AllIntact(Apply(s, a))
  {
    if Calls(a) { IntactCall(s, a); }
    else if Seeks(a) { IntactSeek(s, a); }
  }

  lemma IntactCall(s: State, a: Action)
    requires AllIntact(s) && Enabled(s, a) && Calls(a) && !a.ReceiveFail?
    ensures AllIntact(Apply(s, a))
  {
  }

  lemma IntactSeek(s: State, a: Action)
    requires AllIntact(s) && Enabled(s, a) && Seeks(a)
    ensures AllIntact(Apply(s, a))
  {
  }

  lemma {:induction false} IntactRun(size: nat, actions: seq<Action>)
    requires Run(size, actions).Some? && NoneAbandoned(actions)
    ensures AllIntact(Run(size, actions).value)
  {
    if actions != [] {
      var n := |actions| - 1;
      IntactRun(size, actions[..n]);
      IntactStep(Run(size, actions[..n]).value, actions[n]);
    }
  }

  /** Over a run in which every receive decodes a whole frame, every successful invoke has its own reply. */
  lemma RepliesMatch(size: nat, actions: seq<Action>)
    requires Run(size, actions).Some? && NoneAbandoned(actions)
    ensures forall i :: 0 <= i < |Run(size, actions).value.log| ==>
      var e := Run(size, actions).value.log[i]; e.got == e.sent && e.owner == e.t
  {
    IntactRun(size, actions);
    InvRun(size, actions);
  }

  // ---- what the steps of others leave alone

  function Actor(a: Action): Option<Tid> {
    if Seeks(a) || Gives(a) || Calls(a) then Some(a.t) else None
  }

  /** The server answers request q on connection c. */
  function Answered(w: Wire, q: SeqNo): Wire {
    w.(unanswered := w.unanswered - {q}, inbox := w.inbox + [q])
  }

  /** To a thread that holds a connection and does not move, all that happens is that requests on that
      connection are answered. */
  lemma OtherStep(s: State, a: Action, t: Tid)
    requires PlaceInv(s) && Enabled(s, a) && OnConn(s, t) && Actor(a) != Some(t)
    ensures var c, s' := ConnOf(s.threads[t]).value, Apply(s, a);
            && t < |s'.threads| && s'.threads[t] == s.threads[t] && c < |s'.wires|
            && (if a.Answer? && a.c == c
                then a.seqNo in s.wires[c].unanswered && s'.wires[c] == Answered(s.wires[c], a.seqNo)
                else s'.wires[c] == s.wires[c])
  {
    if OnHeld(a) {
      OnHeldShape(s, a);
    } else if Seeks(a) {
      OtherSeek(s, a, t);
    }
  }

  lemma OtherSeek(s: State, a: Action, t: Tid)
    requires PlaceInv(s) && Enabled(s, a) && Seeks(a) && OnConn(s, t) && a.t != t
    ensures var c, s' := ConnOf(s.threads[t]).value, Apply(s, a);
            t < |s'.threads| && s'.threads[t] == s.threads[t] && c < |s'.wires| && s'.wires[c] == s.wires[c]
  {
    var c := ConnOf(s.threads[t]).value;
    assert s.place[c] == HeldBy(t);
    if a.PopHot? { assert s.hot[0] != c; }
    if a.PopCold? && s.cold != [] { assert s.cold[|s.cold| - 1] != c; }
  }

  // ---- a caller that waits

  /** The caller's own reply is next: nothing can be read any more, or frames are in step and the first reply is
      its own or, before any has come, no other request is unanswered. */
  predicate OwnIsNext(w: Wire, q: SeqNo) {
    w.stream.Dead? || (w.stream.Whole? && if w.inbox != [] then w.inbox[0] == q else w.unanswered == {q})
  }

  ghost predicate Without(more: seq<Action>, t: Tid) {
    forall i :: 0 <= i < |more| ==> Actor(more[i]) != Some(t)
  }

  /** However long the caller waits, the reply it then decodes is its own. */
  ghost predicate OnlyOwnReply(s: State, t: Tid)
    requires t < |s.threads| && s.threads[t].Sent?
  {
    forall more, got ::
      RunFrom(s, more).Some? && Without(more, t) && CanReceive(RunFrom(s, more).value, t, got) ==>
        got == s.threads[t].sent
  }

  lemma AnsweredKeepsOwn(w: Wire, q: SeqNo, own: SeqNo)
    requires OwnIsNext(w, own) && q in w.unanswered
    ensures OwnIsNext(Answered(w, q), own)
  {
  }

  lemma {:induction false} OwnStaysNext(s: State, more: seq<Action>, t: Tid)
    requires Inv(s) && OnConn(s, t) && s.threads[t].Sent? && OwnIsNext(s.wires[s.threads[t].c], s.threads[t].sent)
    requires RunFrom(s, more).Some? && Without(more, t)
    ensures var s' := RunFrom(s, more).value;
            OnConn(s', t) && s'.threads[t] == s.threads[t] && OwnIsNext(s'.wires[s.threads[t].c], s.threads[t].sent)
    decreases |more|
  {
    if more != [] {
      var n := |more| - 1;
      var r, a := LastStep(s, more);
      assert Without(more[..n], t);
      OwnStaysNext(s, more[..n], t);
      InvRunFrom(s, more[..n]);
      OwnNextStep(r, a, t);
    }
  }

  lemma OwnNextStep(s: State, a: Action, t: Tid)
    requires Inv(s) && OnConn(s, t) && s.threads[t].Sent? && OwnIsNext(s.wires[s.threads[t].c], s.threads[t].sent)
    requires Enabled(s, a) && Actor(a) != Some(t)
    ensures var s' := Apply(s, a);
            OnConn(s', t) && s'.threads[t] == s.threads[t] && OwnIsNext(s'.wires[s.threads[t].c], s.threads[t].sent)
  {
    var c := s.threads[t].c;
    WaitStep(s, a, t);
    OtherStep(s, a, t);
    if a.Answer? && a.c == c { AnsweredKeepsOwn(s.wires[c], a.seqNo, s.threads[t].sent); }
  }

  lemma WaitStep(s: State, a: Action, t: Tid)
    requires Inv(s) && OnConn(s, t) && Enabled(s, a) && Actor(a) != Some(t)
    ensures OnConn(Apply(s, a), t) && Apply(s, a).threads[t] == s.threads[t]
  {
    OtherStep(s, a, t);
    InvStep(s, a);
  }

  /** Some continuation hands the caller a reply that is not its own. */
  lemma OthersCanCome(s: State, t: Tid) returns (more: seq<Action>, got: SeqNo)
    requires Inv(s) && OnConn(s, t) && s.threads[t].Sent? && !OwnIsNext(s.wires[s.threads[t].c], s.threads[t].sent)
    ensures RunFrom(s, more).Some? && Without(more, t) && CanReceive(RunFrom(s, more).value, t, got)
    ensures got != s.threads[t].sent
  {
    var c, q := s.threads[t].c, s.threads[t].sent;
    var w := s.wires[c];
    WireOfThread(s, t);
    if w.stream.Torn? {
      more, got := [], q + 1;
    } else if w.inbox != [] {
      more, got := [], w.inbox[0];
    } else {
      assert q in Outstanding(w);
      got :| got in w.unanswered && got != q;
      more := [Answer(c, got)];
      AnswerFirst(s, t, c, got);
    }
  }

  lemma AnswerFirst(s: State, t: Tid, c: ConnId, got: SeqNo)
    requires OnConn(s, t) && s.threads[t].Sent? && s.threads[t].c == c
    requires s.wires[c].stream.Whole? && s.wires[c].inbox == [] && got in s.wires[c].unanswered
    ensures RunFrom(s, [Answer(c, got)]).Some? && Without([Answer(c, got)], t)
    ensures CanReceive(RunFrom(s, [Answer(c, got)]).value, t, got)
  {
    Then(s, [], s, Answer(c, got), Apply(s, Answer(c, got)));
    assert [Answer(c, got)] == [] + [Answer(c, got)];
  }

  /** Exactly when a waiting caller can only be handed its own reply, whatever happens before it reads. */
  lemma ReceiveExactly(size: nat, actions: seq<Action>, t: Tid)
    requires Run(size, actions).Some?
    requires var s := Run(size, actions).value; OnConn(s, t) && s.threads[t].Sent?
    ensures var s := Run(size, actions).value;
            OnlyOwnReply(s, t) <==> OwnIsNext(s.wires[s.threads[t].c], s.threads[t].sent)
  {
    InvRun(size, actions);
    var s := Run(size, actions).value;
    if OwnIsNext(s.wires[s.threads[t].c], s.threads[t].sent) {
      forall more, got |
        RunFrom(s, more).Some? && Without(more, t) && CanReceive(RunFrom(s, more).value, t, got)
        ensures got == s.threads[t].sent
      {
        OwnReplyRead(s, more, t, got);
      }
    } else {
      var more, got := OthersCanCome(s, t);
    }
  }

  lemma OwnReplyRead(s: State, more: seq<Action>, t: Tid, got: SeqNo)
    requires Inv(s) && OnConn(s, t) && s.threads[t].Sent? && OwnIsNext(s.wires[s.threads[t].c], s.threads[t].sent)
    requires RunFrom(s, more).Some? && Without(more, t) && CanReceive(RunFrom(s, more).value, t, got)
    ensures got == s.threads[t].sent
  {
    OwnStaysNext(s, more, t);
  }

  // ---- a caller that has just got its connection

  /** Nothing can be read on the connection, or frames are in step and no earlier reply is outstanding. */
  predicate NothingLate(w: Wire) {
    w.stream.Dead? || (w.stream.Whole? && Outstanding(w) == {})
  }

  /** Of t's own steps only the sending of one request. */
  ghost predicate OneCall(more: seq<Action>, t: Tid) {
    forall i :: 0 <= i < |more| && Actor(more[i]) == Some(t) ==> more[i] == Issue(t) || more[i] == Write(t, true)
  }

  /** Whatever happens until the caller has sent its request and reads, the reply it decodes is its own. */
  ghost predicate WillGetOwnReply(s: State, t: Tid) {
    forall more, got ::
      RunFrom(s, more).Some? && OneCall(more, t) && CanReceive(RunFrom(s, more).value, t, got) ==>
        got == RunFrom(s, more).value.threads[t].sent
  }

  /** The call is in order so far. */
  predicate InOrder(s: State, t: Tid, c: ConnId) {
    && OnConn(s, t) && ConnOf(s.threads[t]) == Some(c)
    && match s.threads[t]
       case Held(_) => NothingLate(s.wires[c])
       case Issued(_, _) => NothingLate(s.wires[c])
       case Sent(_, q) => OwnIsNext(s.wires[c], q)
       case _ => false
  }

  lemma InOrderStep(s: State, a: Action, t: Tid, c: ConnId)
    requires Inv(s) && InOrder(s, t, c) && Enabled(s, a)
    requires Actor(a) == Some(t) ==> a == Issue(t) || a == Write(t, true)
    ensures InOrder(Apply(s, a), t, c)
  {
    InvStep(s, a);
    if a == Write(t, true) {
      if s.wires[c].stream.Whole? { FirstIsOwn(s.wires[c], s.threads[t].sent); }
    } else if Actor(a) != Some(t) {
      OtherStep(s, a, t);
      if a.Answer? && a.c == c {
        if s.threads[t].Sent? { AnsweredKeepsOwn(s.wires[c], a.seqNo, s.threads[t].sent); }
        else { AnsweredKeepsNothingLate(s.wires[c], a.seqNo); }
      }
    }
  }

  lemma FirstIsOwn(w: Wire, q: SeqNo)
    requires w.stream.Whole? && Outstanding(w) == {}
    ensures OwnIsNext(Behind(w, q), q)
  {
    InboxIsOutstanding(w);
    assert w.unanswered + {q} == {q};
  }

  lemma InboxIsOutstanding(w: Wire)
    ensures w.unanswered <= Outstanding(w) && forall i :: 0 <= i < |w.inbox| ==> w.inbox[i] in Outstanding(w)
  {
  }

  lemma AnsweredKeepsNothingLate(w: Wire, q: SeqNo)
    requires NothingLate(w) && q in w.unanswered
    ensures NothingLate(Answered(w, q))
  {
  }

  lemma {:induction false} InOrderRun(s: State, more: seq<Action>, t: Tid, c: ConnId)
    requires Inv(s) && InOrder(s, t, c) && RunFrom(s, more).Some? && OneCall(more, t)
    ensures InOrder(RunFrom(s, more).value, t, c)
    decreases |more|
  {
    if more != [] {
      var n := |more| - 1;
      var r, a := LastStep(s, more);
      assert OneCall(more[..n], t);
      InOrderRun(s, more[..n], t, c);
      InvRunFrom(s, more[..n]);
      InOrderStep(r, a, t, c);
    }
  }

  /** Request q is written after those that are outstanding. */
  function Behind(w: Wire, q: SeqNo): Wire {
    w.(unanswered := w.unanswered + {q})
  }

  /** The request goes out behind what is outstanding. */
  lemma SendBehind(s: State, t: Tid, c: ConnId, q: SeqNo) returns (more: seq<Action>, s': State)
    requires Inv(s) && OnConn(s, t) && s.threads[t] == Held(c) && q == s.sequence + 1 <= MAX_SEQ
    ensures RunFrom(s, more) == Some(s') && OneCall(more, t) && Inv(s') && OnConn(s', t)
    ensures s'.threads[t] == Sent(c, q) && s'.wires[c] == Behind(s.wires[c], q)
  {
    var s1 := IssueStep(s, t);
    s' := WriteStep(s1, t);
    more := [Issue(t), Write(t, true)];
    TwoSteps(s, Issue(t), s1, Write(t, true), s');
    IsOneCall(t);
  }

  lemma IsOneCall(t: Tid)
    ensures OneCall([Issue(t), Write(t, true)], t)
  {
  }

  lemma IssueStep(s: State, t: Tid) returns (s': State)
    requires Inv(s) && OnConn(s, t) && s.threads[t].Held? && s.sequence < MAX_SEQ
    ensures Enabled(s, Issue(t)) && s' == Apply(s, Issue(t)) && Inv(s') && OnConn(s', t)
    ensures s'.threads[t] == Issued(s.threads[t].c, s.sequence + 1) && s'.wires == s.wires
  {
    s' := Apply(s, Issue(t));
    InvStep(s, Issue(t));
  }

  lemma WriteStep(s: State, t: Tid) returns (s': State)
    requires Inv(s) && OnConn(s, t) && s.threads[t].Issued?
    ensures Enabled(s, Write(t, true)) && s' == Apply(s, Write(t, true)) && Inv(s') && OnConn(s', t)
    ensures s'.threads[t] == Sent(s.threads[t].c, s.threads[t].sent)
    ensures s'.wires[s.threads[t].c] == Behind(s.wires[s.threads[t].c], s.threads[t].sent)
  {
    s' := Apply(s, Write(t, true));
    InvStep(s, Write(t, true));
  }

  lemma TwoSteps(s: State, a: Action, r: State, b: Action, s': State)
    requires Enabled(s, a) && Apply(s, a) == r && Enabled(r, b) && Apply(r, b) == s'
    ensures RunFrom(s, [a, b]) == Some(s')
  {
    Then(s, [], s, a, r);
    assert [] + [a] == [a];
    Then(s, [a], r, b, s');
    assert [a] + [b] == [a, b];
  }

  /** A request behind an outstanding one is not next. */
  lemma BehindIsNotNext(w: Wire, q: SeqNo)
    requires !NothingLate(w) && q !in Outstanding(w)
    ensures !OwnIsNext(Behind(w, q), q)
  {
    if w.stream.Whole? {
      if w.inbox != [] {
        assert w.inbox[0] in Outstanding(w);
      } else {
        var late :| late in Outstanding(w);
        assert late in w.unanswered + {q};
      }
    }
  }

  lemma OneCallThenWait(first: seq<Action>, second: seq<Action>, t: Tid)
    requires OneCall(first, t) && Without(second, t)
    ensures OneCall(first + second, t)
  {
    var more := first + second;
    forall i | 0 <= i < |more|
      ensures Actor(more[i]) == Some(t) ==> more[i] == Issue(t) || more[i] == Write(t, true)
    {
      if i < |first| { assert more[i] == first[i]; } else { assert more[i] == second[i - |first|]; }
    }
  }

  lemma SentThenRead(s: State, sent: seq<Action>, s': State, wait: seq<Action>, t: Tid)
    requires RunFrom(s, sent) == Some(s') && OneCall(sent, t) && Inv(s') && OnConn(s', t)
    requires RunFrom(s', wait).Some? && Without(wait, t)
    ensures RunFrom(s, sent + wait) == RunFrom(s', wait) && OneCall(sent + wait, t)
    ensures OnConn(RunFrom(s', wait).value, t) && RunFrom(s', wait).value.threads[t] == s'.threads[t]
  {
    Joined(s, sent, s', wait);
    OneCallThenWait(sent, wait, t);
    WaitingKeepsPc(s', wait, t);
  }

  /** An outstanding reply reaches the caller before its own. */
  lemma LateReplyFirst(s: State, t: Tid) returns (more: seq<Action>, got: SeqNo)
    requires Inv(s) && OnConn(s, t) && s.threads[t].Held? && s.sequence < MAX_SEQ
    requires !NothingLate(s.wires[s.threads[t].c])
    ensures RunFrom(s, more).Some? && OneCall(more, t) && CanReceive(RunFrom(s, more).value, t, got)
    ensures got != RunFrom(s, more).value.threads[t].sent
  {
    var c := s.threads[t].c;
    var sent, s' := SendBehind(s, t, c, s.sequence + 1);
    assert s.sequence + 1 !in Outstanding(s.wires[c]);
    BehindIsNotNext(s.wires[c], s.sequence + 1);
    var wait;
    wait, got := OthersCanCome(s', t);
    more := sent + wait;
    SentThenRead(s, sent, s', wait, t);
  }

  lemma {:induction false} Joined(s: State, first: seq<Action>, r: State, second: seq<Action>)
    requires RunFrom(s, first) == Some(r)
    ensures RunFrom(s, first + second) == RunFrom(r, second)
    decreases |second|
  {
    if second == [] {
      assert first + second == first;
    } else {
      var n, all := |second| - 1, first + second;
      InitOfSum(first, second);
      Joined(s, first, r, second[..n]);
    }
  }

  lemma InitOfSum(first: seq<Action>, second: seq<Action>)
    requires second != []
    ensures var all := first + second;
            all[..|all| - 1] == first + second[..|second| - 1] && all[|all| - 1] == second[|second| - 1]
  {
  }

  lemma {:induction false} WaitingKeepsPc(s: State, more: seq<Action>, t: Tid)
    requires Inv(s) && OnConn(s, t) && RunFrom(s, more).Some? && Without(more, t)
    ensures OnConn(RunFrom(s, more).value, t) && RunFrom(s, more).value.threads[t] == s.threads[t]
    decreases |more|
  {
    if more != [] {
      var n := |more| - 1;
      var r, a := LastStep(s, more);
      assert Without(more[..n], t);
      WaitingKeepsPc(s, more[..n], t);
      InvRunFrom(s, more[..n]);
      WaitStep(r, a, t);
    }
  }

  /** Exactly when a connection handed out by get is safe to call on: nothing can be read on it, or frames are in
      step and no earlier reply is outstanding. */
  lemma GetExactly(size: nat, actions: seq<Action>, t: Tid)
    requires Run(size, actions).Some?
    requires var s := Run(size, actions).value; OnConn(s, t) && s.threads[t].Held? && s.sequence < MAX_SEQ
    ensures var s := Run(size, actions).value; WillGetOwnReply(s, t) <==> NothingLate(s.wires[s.threads[t].c])
  {
    InvRun(size, actions);
    var s := Run(size, actions).value;
    var c := s.threads[t].c;
    if NothingLate(s.wires[c]) {
      forall more, got |
        RunFrom(s, more).Some? && OneCall(more, t) && CanReceive(RunFrom(s, more).value, t, got)
        ensures got == RunFrom(s, more).value.threads[t].sent
      {
        InOrderRead(s, more, t, c, got);
      }
    } else {
      var more, got := LateReplyFirst(s, t);
    }
  }

  lemma InOrderRead(s: State, more: seq<Action>, t: Tid, c: ConnId, got: SeqNo)
    requires Inv(s) && InOrder(s, t, c) && RunFrom(s, more).Some? && OneCall(more, t)
    requires CanReceive(RunFrom(s, more).value, t, got)
    ensures got == RunFrom(s, more).value.threads[t].sent
  {
    InOrderRun(s, more, t, c);
  }

  // ---- why the condition is needed

  /** After a receive that timed out between frames the connection is put back, and the next caller on it is handed
      the late reply to another thread's request. */
  lemma AbandonedReceiveMisdelivers() returns (actions: seq<Action>)
    ensures Run(1, actions).Some?
    ensures var log := Run(1, actions).value.log;
            |log| == 1 && log[0].got != log[0].sent && log[0].owner != log[0].t
  {
    actions := DialOne(1, [], Init(1));
    assert AfterDial(Init(1)) == Scene0;
    actions := Abandon(actions);
    actions := HandedOn(actions);
  }

  /** A pool of size one with one connection. */
  function Lone(hot: seq<ConnId>, threads: seq<PC>, w: Wire, sequence: SeqNo, pending: map<SeqNo, Tid>, p: Place,
                log: seq<Reply>): State {
    State(1, hot, [], 1, None, threads, [w], sequence, pending, 1, [p], 0, log)
  }

  // Thread 0 sends request 1, gives up on the reply and puts the connection back; the reply arrives.
  const First := map[1 := 0]
  const Scene0 := Lone([], [Held(0)], Wire(InUse, {}, [], Whole, true, 0), 0, map[], HeldBy(0), [])
  const Scene1 := Lone([], [Issued(0, 1)], Wire(InUse, {}, [], Whole, true, 0), 1, First, HeldBy(0), [])
  const Scene2 := Lone([], [Sent(0, 1)], Wire(InUse, {1}, [], Whole, true, 0), 1, First, HeldBy(0), [])
  const Scene3 := Lone([], [Putting(0)], Wire(InUse, {1}, [], Whole, false, 1), 1, First, HeldBy(0), [])
  const Scene4 := Lone([0], [Start], Wire(Idle, {1}, [], Whole, false, 1), 1, First, InHot, [])
  const Scene5 := Lone([0], [Start], Wire(Idle, {}, [1], Whole, false, 1), 1, First, InHot, [])
  // Thread 1 takes the connection, sends request 2 and reads the first reply.
  const Both := map[1 := 0, 2 := 1]
  const Scene6 := Lone([0], [Start, Start], Wire(Idle, {}, [1], Whole, false, 1), 1, First, InHot, [])
  const Scene7 := Lone([0], [Start, Get(Hot1)], Wire(Idle, {}, [1], Whole, false, 1), 1, First, InHot, [])
  const Scene8 := Lone([], [Start, Held(0)], Wire(InUse, {}, [1], Whole, false, 1), 1, First, HeldBy(1), [])
  const Scene9 := Lone([], [Start, Issued(0, 2)], Wire(InUse, {}, [1], Whole, false, 1), 2, Both, HeldBy(1), [])
  const Scene10 := Lone([], [Start, Sent(0, 2)], Wire(InUse, {2}, [1], Whole, false, 1), 2, Both, HeldBy(1), [])
  const Scene11 := Lone([], [Start, Putting(0)], Wire(InUse, {2}, [], Whole, false, 1), 2, map[2 := 1], HeldBy(1),
                        [Reply(1, 2, 1, 0, false)])

  predicate Leads(s: State, a: Action, s': State) { Enabled(s, a) && Apply(s, a) == s' }

  lemma Lead1() ensures Leads(Scene0, Issue(0), Scene1) && Leads(Scene1, Write(0, true), Scene2)
  { assert {} + {1} == {1}; }
  lemma Lead2() ensures Leads(Scene2, ReceiveFail(0, Whole), Scene3) {}
  lemma LeadPut() ensures Leads(Scene3, PutHot(0), Scene4) {}
  lemma Lead3() ensures Leads(Scene4, Answer(0, 1), Scene5) && Leads(Scene5, Spawn, Scene6)
  {
    var w, q := Scene4.wires[0], 1;
    assert w.unanswered - {q} == {} && w.inbox + [q] == [1];
  }
  lemma Lead4() ensures Leads(Scene6, Begin(1), Scene7) && Leads(Scene7, PopHot(1, Healthy), Scene8) {}
  lemma Lead5() ensures Leads(Scene8, Issue(1), Scene9) && Leads(Scene9, Write(1, true), Scene10)
  { assert {} + {2} == {2}; }
  lemma Lead6() ensures Leads(Scene10, Receive(1, 1, true), Scene11) {}

  lemma Abandon(before: seq<Action>) returns (actions: seq<Action>)
    requires Run(1, before) == Some(Scene0)
    ensures Run(1, actions) == Some(Scene5)
  {
    Lead1();
    Lead2();
    LeadPut();
    Lead3();
    actions := Follow(before, Scene0, Issue(0), Scene1, Write(0, true), Scene2);
    actions := Follow(actions, Scene2, ReceiveFail(0, Whole), Scene3, PutHot(0), Scene4);
    Then(Init(1), actions, Scene4, Answer(0, 1), Scene5);
    actions := actions + [Answer(0, 1)];
  }

  lemma HandedOn(before: seq<Action>) returns (actions: seq<Action>)
    requires Run(1, before) == Some(Scene5)
    ensures Run(1, actions) == Some(Scene11)
  {
    Lead3();
    Lead4();
    Lead5();
    Lead6();
    actions := Follow(before, Scene5, Spawn, Scene6, Begin(1), Scene7);
    actions := Follow(actions, Scene7, PopHot(1, Healthy), Scene8, Issue(1), Scene9);
    actions := Follow(actions, Scene9, Write(1, true), Scene10, Receive(1, 1, true), Scene11);
  }

  lemma Follow(before: seq<Action>, s: State, a: Action, s1: State, b: Action, s2: State) returns (actions: seq<Action>)
    requires Run(1, before) == Some(s) && Leads(s, a, s1) && Leads(s1, b, s2)
    ensures Run(1, actions) == Some(s2)
  {
    Then(Init(1), before, s, a, s1);
    Then(Init(1), before + [a], s1, b, s2);
    actions := before + [a] + [b];
  }
}
