/** How late a connection is: a whole stream is behind by exactly the receives on it that timed out between frames,
    so once late it is never in step again. */
module ClientLateness {
  import opened Results
  import opened Connections
  import opened ClientPool
  import opened ClientSafety
  import opened ClientTheorems
  import opened ClientReplies

  // ---- a number is written once

  /** A number that is issued and not yet written is outstanding nowhere. */
  ghost predicate FreshInv(s: State) {
    forall t, c :: 0 <= t < |s.threads| && 0 <= c < |s.wires| && s.threads[t].Issued? ==>
      s.threads[t].sent !in Outstanding(s.wires[c])
  }

  /** A thread that is Issued after a step was so before, unless the step issued its number. */
  lemma IssuedBefore(s: State, a: Action, t: Tid)
    requires Enabled(s, a) && t < |Apply(s, a).threads| && Apply(s, a).threads[t].Issued? && a != Issue(t)
    ensures t < |s.threads| && s.threads[t] == Apply(s, a).threads[t] && (a.Write? ==> a.t != t)
  {
    if Calls(a) { CallMoves(s, a); }
    else if Seeks(a) { SeekMoves(s, a); }
    else if Gives(a) { GiveMoves(s, a); }
  }

  lemma FreshAt(s: State, a: Action, t: Tid, c: ConnId)
    requires Inv(s) && FreshInv(s) && Enabled(s, a)
    requires t < |Apply(s, a).threads| && c < |Apply(s, a).wires| && Apply(s, a).threads[t].Issued?
    ensures Apply(s, a).threads[t].sent !in Outstanding(Apply(s, a).wires[c])
  {
    if a == Issue(t) {
      assert Apply(s, a).wires == s.wires;
    } else {
      IssuedBefore(s, a, t);
      if Calls(a) {
        CallAdds(s, a, c);
        if a.Write? { OtherNumber(s, t, a.t); }
      } else {
        SameOutstanding(s, a, c);
      }
    }
  }

  lemma OtherNumber(s: State, t: Tid, u: Tid)
    requires TableInv(s) && t < |s.threads| && u < |s.threads| && t != u && s.threads[t].Issued? && s.threads[u].Issued?
    ensures s.threads[t].sent != s.threads[u].sent
  {
    assert SeqOf(s.threads[t]) != SeqOf(s.threads[u]);
  }

  lemma FreshStep(s: State, a: Action)
    requires Inv(s) && FreshInv(s) && Enabled(s, a)
    ensures FreshInv(Apply(s, a))
  {
    var s' := Apply(s, a);
    forall t, c | 0 <= t < |s'.threads| && 0 <= c < |s'.wires| && s'.threads[t].Issued?
      ensures s'.threads[t].sent !in Outstanding(s'.wires[c])
    {
      FreshAt(s, a, t, c);
    }
  }

  // ---- the account of a connection

  /** Replies owed on the wire besides the one its holder waits for. */
  function Excess(w: Wire, p: Place, threads: seq<PC>): int {
    |w.unanswered| + |w.inbox| - if p.HeldBy? && p.t < |threads| && threads[p.t].Sent? then 1 else 0
  }

  predicate LateOk(w: Wire, p: Place, threads: seq<PC>) {
    w.stream.Whole? ==> Excess(w, p, threads) == w.timeouts
  }

  ghost predicate LateInv(s: State) {
    |s.wires| == |s.place| && forall c :: 0 <= c < |s.wires| ==> LateOk(s.wires[c], s.place[c], s.threads)
  }

  /** Nothing changes for the connections a thread does not hold. */
  lemma LateOthers(s: State, t: Tid, pc: PC, c: ConnId)
    requires PlaceInv(s) && LateInv(s) && t < |s.threads|
    requires ConnOf(s.threads[t]) == None || ConnOf(s.threads[t]) == Some(c)
    ensures forall d :: 0 <= d < |s.wires| && d != c ==> LateOk(s.wires[d], s.place[d], s.threads[t := pc])
  {
    forall d | 0 <= d < |s.wires| && d != c
      ensures LateOk(s.wires[d], s.place[d], s.threads[t := pc])
    {
      assert LateOk(s.wires[d], s.place[d], s.threads);
    }
  }

  lemma LateAt(s: State, s': State, t: Tid, c: ConnId)
    requires PlaceInv(s) && LateInv(s) && t < |s.threads| && c < |s.wires|
    requires ConnOf(s.threads[t]) == None || ConnOf(s.threads[t]) == Some(c)
    requires TouchesOnly(s, s', t, c) && LateOk(s'.wires[c], s'.place[c], s'.threads)
    ensures LateInv(s')
  {
    LateOthers(s, t, s'.threads[t], c);
  }

  /** The account of the connection a step was on, after the step. */
  ghost predicate AccountOk(s: State, a: Action)
    requires Enabled(s, a) && (Calls(a) || Gives(a))
  {
    var c, s' := s.threads[a.t].c, Apply(s, a);
    c < |s'.wires| == |s'.place| && LateOk(s'.wires[c], s'.place[c], s'.threads)
  }

  lemma LateReceive(s: State, a: Action)
    requires PlaceInv(s) && LateInv(s) && Enabled(s, a) && (a.Receive? || a.ReceiveCorrupt? || a.ReceiveFail?)
    ensures AccountOk(s, a)
  {
    var c := s.threads[a.t].c;
    ReceiveShape(s, a);
    assert s.place[c] == HeldBy(a.t) && LateOk(s.wires[c], s.place[c], s.threads);
    LateRead(s.wires[c], a.t, s.threads, if a.ReceiveFail? then a.left else Dead);
  }

  lemma LateWritten(s: State, t: Tid)
    requires PlaceInv(s) && FreshInv(s) && LateInv(s) && Enabled(s, Write(t, true))
    ensures AccountOk(s, Write(t, true))
  {
    var c := s.threads[t].c;
    assert s.place[c] == HeldBy(t) && LateOk(s.wires[c], s.place[c], s.threads);
    assert s.threads[t].sent !in Outstanding(s.wires[c]);
    LateWrite(s.wires[c], t, s.threads);
  }

  lemma LateUnsent(s: State, a: Action)
    requires PlaceInv(s) && LateInv(s) && Enabled(s, a)
    requires a.ReturnEarly? || a.SendFail? || a.Issue? || (a.Write? && !a.ok)
    ensures AccountOk(s, a)
  {
    var c := s.threads[a.t].c;
    assert s.place[c] == HeldBy(a.t) && LateOk(s.wires[c], s.place[c], s.threads);
  }

  lemma LateWrite(w: Wire, t: Tid, threads: seq<PC>)
    requires t < |threads| && threads[t].Issued? && LateOk(w, HeldBy(t), threads) && threads[t].sent !in Outstanding(w)
    ensures LateOk(Behind(w, threads[t].sent), HeldBy(t), threads[t := Sent(threads[t].c, threads[t].sent)])
  {
  }

  lemma LateRead(w: Wire, t: Tid, threads: seq<PC>, left: Stream)
    requires t < |threads| && threads[t].Sent? && LateOk(w, HeldBy(t), threads)
    ensures CanRead(w) ==> LateOk(Consumed(w), HeldBy(t), threads[t := Putting(threads[t].c)])
    ensures Leaves(w.stream, left) ==> LateOk(Failed(w, left), HeldBy(t), threads[t := Putting(threads[t].c)])
  {
  }

  lemma LateGive(s: State, a: Action)
    requires PlaceInv(s) && LateInv(s) && Enabled(s, a) && Gives(a)
    ensures AccountOk(s, a)
  {
    var c := s.threads[a.t].c;
    assert s.place[c] == HeldBy(a.t);
    assert LateOk(s.wires[c], s.place[c], s.threads);
  }

  lemma LatePop(s: State, a: Action)
    requires PlaceInv(s) && LateInv(s) && Enabled(s, a) && (a.PopHot? || (a.PopCold? && s.cold != []))
    ensures LateInv(Apply(s, a))
  {
    var c := if a.PopHot? then s.hot[0] else s.cold[|s.cold| - 1];
    assert LateOk(s.wires[c], s.place[c], s.threads);
    LateAt(s, Apply(s, a), a.t, c);
  }

  lemma LateDial(s: State, t: Tid)
    requires PlaceInv(s) && LateInv(s) && Enabled(s, Dialed(t, true))
    ensures LateInv(Apply(s, Dialed(t, true)))
  {
    var s' := Apply(s, Dialed(t, true));
    LateOthers(s, t, s'.threads[t], |s.wires|);
    forall d | 0 <= d < |s'.wires|
      ensures LateOk(s'.wires[d], s'.place[d], s'.threads)
    {
      if d < |s.wires| { assert s'.wires[d] == s.wires[d] && s'.place[d] == s.place[d]; }
    }
  }

  lemma LateIdle(s: State, a: Action)
    requires PlaceInv(s) && LateInv(s) && Enabled(s, a) && Seeks(a)
    requires !a.PopHot? && !(a.PopCold? && s.cold != []) && !(a.Dialed? && a.ok)
    ensures LateInv(Apply(s, a))
  {
    LateOthers(s, a.t, Apply(s, a).threads[a.t], |s.wires|);
  }

  lemma LateRest(s: State, a: Action)
    requires PlaceInv(s) && LateInv(s) && Enabled(s, a) && (a.Spawn? || a.Prewarm? || a.Answer?)
    ensures LateInv(Apply(s, a))
  {
    var s' := Apply(s, a);
    forall c | 0 <= c < |s'.wires|
      ensures LateOk(s'.wires[c], s'.place[c], s'.threads)
    {
      if c < |s.wires| { assert LateOk(s.wires[c], s.place[c], s.threads); }
    }
  }

  lemma LateStep(s: State, a: Action)
    requires Inv(s) && FreshInv(s) && LateInv(s) && Enabled(s, a)
    ensures LateInv(Apply(s, a))
  {
    if Calls(a) || Gives(a) {
      OnHeldShape(s, a);
      if Gives(a) { LateGive(s, a); }
      else if a.Receive? || a.ReceiveCorrupt? || a.ReceiveFail? { LateReceive(s, a); }
      else if a.Write? && a.ok { LateWritten(s, a.t); }
      else { LateUnsent(s, a); }
      LateAt(s, Apply(s, a), a.t, s.threads[a.t].c);
    } else if a.PopHot? || (a.PopCold? && s.cold != []) {
      LatePop(s, a);
    } else if a.Dialed? && a.ok {
      LateDial(s, a.t);
    } else if Seeks(a) {
      LateIdle(s, a);
    } else {
      LateRest(s, a);
    }
  }

  lemma {:induction false} LateRun(size: nat, actions: seq<Action>)
    requires Run(size, actions).Some?
    ensures var s := Run(size, actions).value; Inv(s) && FreshInv(s) && LateInv(s)
    decreases |actions|
  {
    InvRun(size, actions);
    if actions != [] {
      var n := |actions| - 1;
      LateRun(size, actions[..n]);
      FreshStep(Run(size, actions[..n]).value, actions[n]);
      LateStep(Run(size, actions[..n]).value, actions[n]);
    }
  }

  /** On every whole stream, the replies owed besides the one its holder waits for are as many as the receives on
      it that timed out between frames: nothing ever brings it back in step. */
  lemma Lateness(size: nat, actions: seq<Action>, c: ConnId)
    requires Run(size, actions).Some? && c < |Run(size, actions).value.wires|
    ensures var s := Run(size, actions).value;
            && |s.wires| == |s.place|
            && (s.wires[c].stream.Whole? ==> Excess(s.wires[c], s.place[c], s.threads) == s.wires[c].timeouts)
  {
    LateRun(size, actions);
    var s := Run(size, actions).value;
    assert LateOk(s.wires[c], s.place[c], s.threads);
  }

  /** A connection that is not dead and not torn is safe to call on exactly when no receive on it ever timed out. */
  lemma SafeExactly(size: nat, actions: seq<Action>, t: Tid)
    requires Run(size, actions).Some?
    requires var s := Run(size, actions).value;
             OnConn(s, t) && s.threads[t].Held? && s.sequence < MAX_SEQ && s.wires[s.threads[t].c].stream.Whole?
    ensures var s := Run(size, actions).value; WillGetOwnReply(s, t) <==> s.wires[s.threads[t].c].timeouts == 0
  {
    var s := Run(size, actions).value;
    var c := s.threads[t].c;
    GetExactly(size, actions, t);
    Lateness(size, actions, c);
    InvRun(size, actions);
    assert s.place[c] == HeldBy(t);
    NothingOwed(s.wires[c]);
  }

  lemma NothingOwed(w: Wire)
    ensures Outstanding(w) == {} <==> |w.unanswered| + |w.inbox| == 0
  {
    if |w.unanswered| + |w.inbox| == 0 {
      assert Outstanding(w) == {};
    } else if w.inbox != [] {
      assert w.inbox[0] in Outstanding(w);
    } else {
      assert w.unanswered != {};
      var q :| q in w.unanswered;
      assert q in Outstanding(w);
    }
  }
}
