/** What the worker dispatch promises of every run. */
module DispatchTheorems {
  import opened Dispatch
  import opened DispatchSafety

  ghost predicate Reachable(s: State, run: seq<Action>, pool: bool, cap: nat, maxWorkers: nat) {
    Reaches(Init(pool, cap, maxWorkers), run, s)
  }

  lemma ReachableInv(s: State, run: seq<Action>, pool: bool, cap: nat, maxWorkers: nat)
    requires Reachable(s, run, pool, cap, maxWorkers)
    ensures Inv(s)
  {
    InvInit(pool, cap, maxWorkers);
    InvReaches(Init(pool, cap, maxWorkers), run, s);
  }

  // ---------- conservation ----------

  ghost predicate HeldBySome(s: State, t: TaskId) {
    exists w :: w in s.workers && Holds(s.workers[w].pc, t)
  }

  function One(b: bool): nat {
    if b then 1 else 0
  }

  /** In every run each submitted function is in exactly one place: in the channel once, with one worker, in a
      goroutine of its own, ended once, or dropped by a stop. It is called at most once, and never before it
      has left the channel. */
  lemma DispatchConservation(s: State, run: seq<Action>, pool: bool, cap: nat, maxWorkers: nat, t: TaskId)
    requires Reachable(s, run, pool, cap, maxWorkers) && t < |s.place|
    ensures |s.starts| == |s.ends| == |s.place|
    ensures One(t in s.queue) + One(HeldBySome(s, t)) + One(t in s.direct) + s.ends[t] + One(t in s.dropped) == 1
    ensures forall i, j :: 0 <= i < j < |s.queue| ==> s.queue[i] != s.queue[j]
    ensures forall w, v :: w in s.workers && v in s.workers ==>
              Holds(s.workers[w].pc, t) && Holds(s.workers[v].pc, t) ==> w == v
    ensures s.ends[t] <= s.starts[t] <= 1
    ensures t in s.queue || t in s.dropped ==> s.starts[t] == 0
    ensures t in s.dropped ==> s.stopping
  {
    ReachableInv(s, run, pool, cap, maxWorkers);
    PlaceDecides(s, t);
  }

  lemma PlaceDecides(s: State, t: TaskId)
    requires Inv(s) && t < |s.place|
    ensures t in s.queue <==> s.place[t] == Queued
    ensures HeldBySome(s, t) <==> s.place[t].With?
    ensures t in s.direct <==> s.place[t] == Direct
    ensures t in s.dropped <==> s.place[t] == Dropped
  {
    if s.place[t].With? { assert Holds(s.workers[s.place[t].w].pc, t); }
  }

  /** Workers take functions in the order they were submitted. */
  lemma OldestFirst(s: State, run: seq<Action>, pool: bool, cap: nat, maxWorkers: nat, w: WorkerKey, t: TaskId)
    requires Reachable(s, run, pool, cap, maxWorkers) && Enabled(s, Take(w)) && t in s.queue
    ensures Apply(s, Take(w)).workers[w].pc == Took(s.queue[0]) && s.queue[0] <= t
    ensures |s.queue| <= s.cap
  {
    ReachableInv(s, run, pool, cap, maxWorkers);
  }

  // ---------- loads ----------

  ghost function Sum(loads: seq<int>, n: nat): int
    requires n <= |loads|
  {
    if n == 0 then 0 else Sum(loads, n - 1) + loads[n - 1]
  }

  /** The workers inside a counted call whose id is below n and has a counter. */
  ghost function LoadedBelow(ws: Workers, n: nat): set<WorkerKey> {
    set w | w in ws && 0 <= ws[w].id < n && Loaded(ws[w])
  }

  lemma {:induction false} SumIsLoaded(ws: Workers, loads: seq<int>, n: nat)
    requires LoadsMatch(ws, loads) && n <= |loads|
    ensures Sum(loads, n) == |LoadedBelow(ws, n)|
  {
    if n == 0 {
      assert LoadedBelow(ws, 0) == {};
    } else {
      SumIsLoaded(ws, loads, n - 1);
      assert LoadedBelow(ws, n) == LoadedBelow(ws, n - 1) + LoadedWith(ws, n - 1);
      assert LoadedBelow(ws, n - 1) !! LoadedWith(ws, n - 1);
    }
  }

  /** The load counters add up to the counted calls in progress on in-range ids, and each counter is the
      number of them on that id, so none is ever negative. */
  lemma LoadsAreCalls(s: State, run: seq<Action>, pool: bool, cap: nat, maxWorkers: nat)
    requires Reachable(s, run, pool, cap, maxWorkers)
    ensures Sum(s.loads, |s.loads|) == |LoadedBelow(s.workers, |s.loads|)|
    ensures forall i :: 0 <= i < |s.loads| ==> s.loads[i] == |LoadedWith(s.workers, i)|
  {
    ReachableInv(s, run, pool, cap, maxWorkers);
    SumIsLoaded(s.workers, s.loads, |s.loads|);
  }

  // ---------- the worker population ----------

  function Population(s: State): nat {
    |s.workers| + s.scheduled
  }

  lemma PopulationStep(s: State, a: Action)
    requires Enabled(s, a) && WorkerInv(s)
    ensures s.closed ==> Apply(s, a).closed
    ensures !s.closed ==> Population(Apply(s, a)) >= Population(s)
  {
    match a
    case Recycle(w) =>
      assert |s.workers - {w}| == |s.workers| - 1;
      Added(s.workers - {w}, s.nextWorker, NewWorker(s.numWorkers));
    case Panic(w) => assert |s.workers - {w}| == |s.workers| - 1;
    case RunScheduled => Added(s.workers, s.nextWorker, NewWorker(s.numWorkers));
    case Spawn => Added(s.workers, s.nextWorker, NewWorker(s.numWorkers));
    case Exit(_) =>
    case _ =>
      SameWorkers(s, a);
      SameSize(s.workers, Apply(s, a).workers);
  }

  lemma SameWorkers(s: State, a: Action)
    requires Enabled(s, a) && !a.Recycle? && !a.Panic? && !a.RunScheduled? && !a.Spawn? && !a.Exit?
    ensures Apply(s, a).workers.Keys == s.workers.Keys
  {
  }

  lemma Added(ws: Workers, w: WorkerKey, v: Worker)
    requires w !in ws
    ensures |ws[w := v]| == |ws| + 1
  {
    assert ws[w := v].Keys == ws.Keys + {w};
    assert |ws[w := v].Keys| == |ws[w := v]| && |ws.Keys| == |ws|;
  }

  lemma SameSize(ws: Workers, ws': Workers)
    requires ws.Keys == ws'.Keys
    ensures |ws| == |ws'|
  {
    assert |ws.Keys| == |ws| && |ws'.Keys| == |ws'|;
  }

  /** Until the channel is closed, live workers plus scheduled replacements never decrease, whatever is stored
      in numWorkers. */
  lemma {:induction false} PopulationNeverShrinks(s: State, run: seq<Action>, s': State)
    requires Inv(s) && Reaches(s, run, s') && !s'.closed
    ensures !s.closed && Population(s') >= Population(s)
    decreases |run|
  {
    if run != [] {
      InvStep(s, run[0]);
      PopulationStep(s, run[0]);
      PopulationNeverShrinks(Apply(s, run[0]), run[1..], s');
    }
  }

  /** A worker's rounds are the functions it has run and the times it found nothing. */
  ghost predicate RoundsInv(s: State) {
    forall w :: w in s.workers ==> RoundsOk(s.workers[w])
  }

  predicate RoundsOk(v: Worker) {
    v.completed == v.ran + v.polls <= RESET_THRESHOLD && (v.pc != Polling ==> v.completed < RESET_THRESHOLD)
  }

  lemma RoundsStep(s: State, a: Action)
    requires Enabled(s, a) && RoundsInv(s)
    ensures RoundsInv(Apply(s, a))
  {
    var s' := Apply(s, a);
    forall w | w in s'.workers
      ensures RoundsOk(s'.workers[w])
    {
      RoundsAt(s, a, w);
    }
  }

  lemma RoundsAt(s: State, a: Action, w: WorkerKey)
    requires Enabled(s, a) && w in Apply(s, a).workers && (w in s.workers ==> RoundsOk(s.workers[w]))
    ensures RoundsOk(Apply(s, a).workers[w])
  {
    if a.Take? || a.Idle? || a.Begin? || a.End? || a.Release? { RoundsTurn(s, a, w); }
  }

  lemma RoundsTurn(s: State, a: Action, w: WorkerKey)
    requires Enabled(s, a) && (a.Take? || a.Idle? || a.Begin? || a.End? || a.Release?)
    requires w in Apply(s, a).workers && (w in s.workers ==> RoundsOk(s.workers[w]))
    ensures RoundsOk(Apply(s, a).workers[w])
  {
  }

  lemma {:induction false} RoundsReach(s: State, run: seq<Action>, s': State)
    requires RoundsInv(s) && Reaches(s, run, s')
    ensures RoundsInv(s')
    decreases |run|
  {
    if run != [] {
      RoundsStep(s, run[0]);
      RoundsReach(Apply(s, run[0]), run[1..], s');
    }
  }

  /** How many functions a worker has run when it replaces itself: the threshold less its empty polls. So it is
      the threshold, as the comment says, exactly when it never found the channel empty. */
  lemma RecycledAfter(s: State, run: seq<Action>, pool: bool, cap: nat, maxWorkers: nat, w: WorkerKey)
    requires Reachable(s, run, pool, cap, maxWorkers) && Enabled(s, Recycle(w))
    ensures s.workers[w].ran + s.workers[w].polls == RESET_THRESHOLD
    ensures s.workers[w].ran == RESET_THRESHOLD <==> s.workers[w].polls == 0
  {
    RoundsReach(Init(pool, cap, maxWorkers), run, s);
  }

  /** An idle worker reaches the threshold by empty polls alone. */
  lemma {:induction false} IdleRounds(s: State, w: WorkerKey, n: nat, s': State)
    requires At(s, w, Polling) && s.queue == [] && !s.closed && s.workers[w].completed + n <= RESET_THRESHOLD
    requires var v := s.workers[w];
             s' == s.(workers := s.workers[w := v.(completed := v.completed + n, polls := v.polls + n)])
    ensures Reaches(s, seq(n, _ => Idle(w)), s')
    ensures s.workers[w].completed + n == RESET_THRESHOLD ==> Enabled(s', Recycle(w)) && s'.starts == s.starts
    decreases n
  {
    var run := seq(n, _ => Idle(w));
    if n == 0 {
      assert s'.workers == s.workers;
    } else {
      var s1 := Apply(s, Idle(w));
      assert run[1..] == seq(n - 1, _ => Idle(w));
      var v := s1.workers[w];
      assert s'.workers == s1.workers[w := v.(completed := v.completed + (n - 1), polls := v.polls + (n - 1))];
      IdleRounds(s1, w, n - 1, s');
    }
  }
}
