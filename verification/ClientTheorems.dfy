/** The client pool's guarantees, each for every run from an empty pool of any size. */
module ClientTheorems {
  import opened Results
  import opened Connections
  import opened ClientPool
  import opened ClientSafety

  // ---- exclusivity

  ghost predicate Holds(s: State, t: Tid, c: ConnId) {
    t < |s.threads| && ConnOf(s.threads[t]) == Some(c)
  }

  ghost function HoldersOf(s: State, c: ConnId): set<Tid> {
    set t | 0 <= t < |s.threads| && Holds(s, t, c)
  }

  /** How often connection c occurs in the hot queue, the cold queue, with a thread, or among the closed. */
  ghost function Copies(s: State, c: ConnId): nat
    requires c < |s.place|
  {
    multiset(s.hot)[c] + multiset(s.cold)[c] + |HoldersOf(s, c)| +
    if s.place[c].Leaked? || s.place[c].Released? then 1 else 0
  }

  lemma {:induction false} CountDistinct(q: seq<ConnId>, c: ConnId)
    requires forall i, j :: 0 <= i < j < |q| ==> q[i] != q[j]
    ensures multiset(q)[c] == if c in q then 1 else 0
  {
    if q != [] {
      var n := |q| - 1;
      assert q == q[..n] + [q[n]];
      CountDistinct(q[..n], c);
    }
  }

  lemma OneHolder(s: State, c: ConnId)
    requires PlaceInv(s) && c < |s.place|
    ensures HoldersOf(s, c) == if s.place[c].HeldBy? then {s.place[c].t} else {}
  {
  }

  lemma OneCopy(s: State, c: ConnId)
    requires PlaceInv(s) && c < |s.place|
    ensures Copies(s, c) == 1
  {
    CountDistinct(s.hot, c);
    CountDistinct(s.cold, c);
    OneHolder(s, c);
    assert c in s.hot <==> s.place[c].InHot?;
    assert c in s.cold <==> s.place[c].InCold?;
  }

  /** Exclusivity: every connection ever dialled is in exactly one place, so no two calls share one; one that
      is queued is idle and one that is closed is not handed out. */
  lemma Exclusivity(size: nat, actions: seq<Action>, c: ConnId)
    requires Run(size, actions).Some? && c < |Run(size, actions).value.wires|
    ensures var s := Run(size, actions).value;
            && |s.place| == |s.wires|
            && Copies(s, c) == 1
            && (c in s.hot || c in s.cold ==> s.wires[c].status == Idle)
            && (forall t, u :: Holds(s, t, c) && Holds(s, u, c) ==> t == u)
  {
    InvRun(size, actions);
    var s := Run(size, actions).value;
    OneCopy(s, c);
    assert WireOk(s.wires[c], s.place[c], s.threads);
  }

  // ---- conservation

  ghost function Holders(s: State): set<Tid> {
    set t | 0 <= t < |s.threads| && ConnOf(s.threads[t]).Some?
  }

  ghost function PlacedAt(s: State, p: Place): set<ConnId> {
    set c | 0 <= c < |s.place| && s.place[c] == p
  }

  ghost function HeldConns(s: State): set<ConnId> {
    set c | 0 <= c < |s.place| && s.place[c].HeldBy?
  }

  lemma {:induction false} ListedSize(q: seq<ConnId>, cs: set<ConnId>)
    requires forall i, j :: 0 <= i < j < |q| ==> q[i] != q[j]
    requires forall c :: c in q <==> c in cs
    ensures |cs| == |q|
  {
    if q != [] {
      var n := |q| - 1;
      forall c ensures c in q[..n] <==> c in cs - {q[n]} {
        if c in cs - {q[n]} {
          var i :| 0 <= i < |q| && q[i] == c;
          assert q[..n][i] == c;
        }
      }
      assert q[n] in q;
      ListedSize(q[..n], cs - {q[n]});
    } else {
      assert cs == {};
    }
  }

  lemma {:induction false} InjectiveSize(m: map<Tid, ConnId>, cs: set<ConnId>)
    requires forall t, u :: t in m && u in m && m[t] == m[u] ==> t == u
    requires forall c :: c in cs <==> exists t :: t in m && m[t] == c
    ensures |cs| == |m.Keys|
    decreases |m.Keys|
  {
    if m.Keys == {} {
      assert cs == {};
    } else {
      var t :| t in m;
      var m', cs' := m - {t}, cs - {m[t]};
      forall c ensures c in cs' <==> exists u :: u in m' && m'[u] == c {
        if c in cs' {
          var u :| u in m && m[u] == c;
          assert u in m' && m'[u] == c;
        }
      }
      assert m'.Keys == m.Keys - {t};
      InjectiveSize(m', cs');
    }
  }

  lemma HeldSize(s: State)
    requires PlaceInv(s)
    ensures |HeldConns(s)| == |Holders(s)|
  {
    var m := map t | t in Holders(s) :: ConnOf(s.threads[t]).value;
    forall c ensures c in HeldConns(s) <==> exists t :: t in m && m[t] == c {
      if c in HeldConns(s) {
        assert s.place[c].t in m && m[s.place[c].t] == c;
      }
    }
    assert m.Keys == Holders(s);
    InjectiveSize(m, HeldConns(s));
  }

  lemma QueueSizes(s: State)
    requires PlaceInv(s)
    ensures |PlacedAt(s, InHot)| == |s.hot| && |PlacedAt(s, InCold)| == |s.cold|
  {
    ListedSize(s.hot, PlacedAt(s, InHot));
    ListedSize(s.cold, PlacedAt(s, InCold));
  }

  lemma LiveSplit(s: State)
    ensures |Live(s.place)| == |PlacedAt(s, InHot)| + |PlacedAt(s, InCold)| + |HeldConns(s)| + |PlacedAt(s, Leaked)|
  {
    var h, c, b, l := PlacedAt(s, InHot), PlacedAt(s, InCold), HeldConns(s), PlacedAt(s, Leaked);
    assert Live(s.place) == h + c + b + l;
    assert |h + c| == |h| + |c|;
    assert |h + c + b| == |h + c| + |b|;
  }

  /** Conservation: `created` counts the queued, the held (or being released) and the leaked connections; it
      can pass the configured size, but only by the prewarmed ones. */
  lemma Conservation(size: nat, actions: seq<Action>)
    requires Run(size, actions).Some?
    ensures var s := Run(size, actions).value;
            && s.created == |s.hot| + |s.cold| + |Holders(s)| + |PlacedAt(s, Leaked)|
            && s.created <= size + Quarter(size)
  {
    InvRun(size, actions);
    var s := Run(size, actions).value;
    LiveSplit(s);
    QueueSizes(s);
    HeldSize(s);
  }

  // ---- the limit

  /** The one step that passes the limit: a prewarmed connection when `size` are counted already. */
  lemma LimitStep(s: State, a: Action)
    requires Inv(s) && Enabled(s, a) && s.created <= s.size
    ensures Apply(s, a).created > s.size <==> a == Prewarm(true) && s.created == s.size
  {
    if Local(a) { LocalStep(s, a); }
  }

  /** `created` is at most size after every prefix of the run. */
  ghost predicate StaysWithin(size: nat, actions: seq<Action>)
    requires Run(size, actions).Some?
    decreases |actions|
  {
    Run(size, actions).value.created <= size && (actions != [] ==> StaysWithin(size, actions[..|actions| - 1]))
  }

  /** Every successful prewarming step of the run finds fewer than size connections counted: the test that
      prewarmConnections does not make. */
  ghost predicate PrewarmsBelow(size: nat, actions: seq<Action>)
    requires Run(size, actions).Some?
    decreases |actions|
  {
    actions != [] ==>
      var n := |actions| - 1;
      && (actions[n] == Prewarm(true) ==> Run(size, actions[..n]).value.created < size)
      && PrewarmsBelow(size, actions[..n])
  }

  /** The limit is kept over a run exactly when no prewarming step is taken at the limit. */
  lemma {:induction false} LimitExactly(size: nat, actions: seq<Action>)
    requires Run(size, actions).Some?
    ensures StaysWithin(size, actions) <==> PrewarmsBelow(size, actions)
    decreases |actions|
  {
    if actions != [] {
      var n := |actions| - 1;
      LimitExactly(size, actions[..n]);
      InvRun(size, actions[..n]);
      if StaysWithin(size, actions[..n]) {
        LimitStep(Run(size, actions[..n]).value, actions[n]);
      }
    }
  }

  // ---- the bound is reached

  /** The run `actions`, ending in s, goes on with step a to s'. */
  lemma Then(s0: State, actions: seq<Action>, s: State, a: Action, s': State)
    requires RunFrom(s0, actions) == Some(s) && Enabled(s, a) && Apply(s, a) == s'
    ensures RunFrom(s0, actions + [a]) == Some(s')
  {
    assert (actions + [a])[..|actions|] == actions;
  }

  function WithLast(s: State, pc: PC): State { s.(threads := s.threads + [pc]) }

  lemma LastMoves(s: State, pc: PC, pc': PC)
    ensures SetPC(WithLast(s, pc), |s.threads|, pc') == WithLast(s, pc')
  {
    assert (s.threads + [pc])[|s.threads| := pc'] == s.threads + [pc'];
  }

  /** After a new thread has dialled. */
  function AfterDial(s: State): State {
    WithLast(s, Held(|s.wires|)).(created := s.created + 1, wires := s.wires + [NewWire.(status := InUse)],
                                  place := s.place + [HeldBy(|s.threads|)])
  }

  /** After a new thread has dialled and, as a heartbeat does, closed the connection again. */
  function AfterDrop(s: State): State {
    WithLast(s, Start).(created := s.created + 1, wires := s.wires + [NewWire.(status := Closed)],
                        place := s.place + [Leaked])
  }

  lemma DialOne(size: nat, before: seq<Action>, s: State) returns (actions: seq<Action>)
    requires Run(size, before) == Some(s)
    requires s.hot == [] && s.lock == None && s.created < s.size && |s.wires| == |s.place|
    ensures Run(size, actions) == Some(AfterDial(s))
  {
    var t := |s.threads|;
    actions := FindRoom(size, before, s);
    var locked := WithLast(s, Dial(Cold)).(lock := Some(t));
    LastMoves(s, Create(Cold), Dial(Cold));
    Then(Init(size), actions, WithLast(s, Create(Cold)), LockCreate(t), locked);
    actions := actions + [LockCreate(t)];
    LastMoves(s, Dial(Cold), Held(|s.wires|));
    Then(Init(size), actions, locked, Dialed(t, true), AfterDial(s));
    actions := actions + [Dialed(t, true)];
  }

  /** A new thread finds the hot queue empty and room to dial. */
  lemma FindRoom(size: nat, before: seq<Action>, s: State) returns (actions: seq<Action>)
    requires Run(size, before) == Some(s) && s.hot == [] && s.created < s.size
    ensures Run(size, actions) == Some(WithLast(s, Create(Cold)))
  {
    var t := |s.threads|;
    LastMoves(s, Start, Get(Hot1));
    LastMoves(s, Get(Hot1), Get(Load1));
    LastMoves(s, Get(Load1), Create(Cold));
    Then(Init(size), before, s, Spawn, WithLast(s, Start));
    actions := before + [Spawn];
    Then(Init(size), actions, WithLast(s, Start), Begin(t), WithLast(s, Get(Hot1)));
    actions := actions + [Begin(t)];
    Then(Init(size), actions, WithLast(s, Get(Hot1)), HotEmpty(t), WithLast(s, Get(Load1)));
    actions := actions + [HotEmpty(t)];
    Then(Init(size), actions, WithLast(s, Get(Load1)), LoadCount(t), WithLast(s, Create(Cold)));
    actions := actions + [LoadCount(t)];
  }

  lemma DropOne(size: nat, before: seq<Action>, s: State) returns (actions: seq<Action>)
    requires Run(size, before) == Some(AfterDial(s)) && |s.wires| == |s.place|
    ensures Run(size, actions) == Some(AfterDrop(s))
  {
    var t, c := |s.threads|, |s.wires|;
    var doomed := AfterDial(s).(threads := s.threads + [Doomed(c)]);
    assert (s.threads + [Held(c)])[t := Doomed(c)] == s.threads + [Doomed(c)];
    Then(Init(size), before, AfterDial(s), SendFail(t), doomed);
    assert (s.threads + [Doomed(c)])[t := Start] == s.threads + [Start];
    assert (s.place + [HeldBy(t)])[c := Leaked] == s.place + [Leaked];
    assert (s.wires + [NewWire.(status := InUse)])[c := NewWire.(status := Closed)] ==
           s.wires + [NewWire.(status := Closed)];
    Then(Init(size), before + [SendFail(t)], doomed, Drop(t), AfterDrop(s));
    actions := before + [SendFail(t)] + [Drop(t)];
  }

  lemma {:induction false} DialMany(size: nat, k: nat, drop: bool) returns (actions: seq<Action>)
    requires k <= size
    ensures Run(size, actions).Some?
    ensures var s := Run(size, actions).value;
            && s.hot == [] && s.lock == None && s.size == size && s.created == k == |s.wires| == |s.place|
            && s.prewarmLeft == Quarter(size)
            && (drop ==> forall c :: 0 <= c < k ==> s.place[c] == Leaked)
  {
    if k == 0 {
      actions := [];
    } else {
      var before := DialMany(size, k - 1, drop);
      var s := Run(size, before).value;
      actions := DialOne(size, before, s);
      if drop { actions := DropOne(size, actions, s); }
    }
  }

  lemma {:induction false} PrewarmMany(size: nat, before: seq<Action>, k: nat) returns (actions: seq<Action>)
    requires Run(size, before).Some?
    requires var s := Run(size, before).value; s.lock == None && s.prewarmLeft >= k
    ensures Run(size, actions).Some?
    ensures var s, s' := Run(size, before).value, Run(size, actions).value;
            s'.lock == None && s'.created == s.created + k && s'.prewarmLeft == s.prewarmLeft - k
  {
    if k == 0 {
      actions := before;
    } else {
      actions := PrewarmMany(size, before, k - 1);
      var s := Run(size, actions).value;
      Then(Init(size), actions, s, Prewarm(true), Apply(s, Prewarm(true)));
      actions := actions + [Prewarm(true)];
    }
  }

  /** The documented maximum of `size` connections is not kept: for every size a run reaches the bound. */
  lemma BoundIsReached(size: nat) returns (actions: seq<Action>)
    ensures Run(size, actions).Some? && Run(size, actions).value.created == size + Quarter(size) > size
  {
    var dialled := DialMany(size, size, false);
    actions := PrewarmMany(size, dialled, Quarter(size));
  }
}
