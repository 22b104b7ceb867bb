/** What every step of the worker dispatch keeps, and what follows for every run. */
module DispatchSafety {
  import opened Dispatch

  type Workers = map<WorkerKey, Worker>

  // ---------- the queue ----------

  /** The channel holds exactly the queued functions, once each and in the order they were submitted. */
  ghost predicate Queues(q: seq<TaskId>, place: seq<Place>) {
    && (forall i :: 0 <= i < |q| ==> q[i] < |place| && place[q[i]] == Queued)
    && (forall i, j :: 0 <= i < j < |q| ==> q[i] < q[j])
    && (forall t :: 0 <= t < |place| && place[t] == Queued ==> t in q)
  }

  lemma QueuesGrow(q: seq<TaskId>, place: seq<Place>, x: Place)
    requires Queues(q, place)
    ensures Queues(if x == Queued then q + [|place|] else q, place + [x])
  {
    if x == Queued {
      QueuesPush(q, place);
    } else {
      forall t | 0 <= t < |place| + 1 && (place + [x])[t] == Queued
        ensures t in q
      {
        assert place[t] == Queued;
      }
    }
  }

  lemma QueuesPush(q: seq<TaskId>, place: seq<Place>)
    requires Queues(q, place)
    ensures Queues(q + [|place|], place + [Queued])
  {
    var q', place' := q + [|place|], place + [Queued];
    forall t | 0 <= t < |place'| && place'[t] == Queued
      ensures t in q'
    {
      if t < |place| {
        assert place[t] == Queued;
        assert t in q;
      } else {
        assert q'[|q|] == t;
      }
    }
  }

  lemma QueuesPop(q: seq<TaskId>, place: seq<Place>, x: Place)
    requires Queues(q, place) && q != [] && x != Queued
    ensures Queues(q[1..], place[q[0] := x])
  {
    var q', place' := q[1..], place[q[0] := x];
    forall t | 0 <= t < |place'| && place'[t] == Queued
      ensures t in q'
    {
      assert t in q;
      var i :| 0 <= i < |q| && q[i] == t;
      assert q'[i - 1] == t;
    }
  }

  lemma QueuesElsewhere(q: seq<TaskId>, place: seq<Place>, t: TaskId, x: Place)
    requires Queues(q, place) && t < |place| && place[t] != Queued && x != Queued
    ensures Queues(q, place[t := x])
  {
  }

  // ---------- the direct and the dropped functions ----------

  ghost predicate Marked(m: set<TaskId>, place: seq<Place>, p: Place) {
    && (forall t :: t in m ==> t < |place| && place[t] == p)
    && (forall t :: 0 <= t < |place| && place[t] == p ==> t in m)
  }

  lemma MarkedGrow(m: set<TaskId>, place: seq<Place>, p: Place, x: Place)
    requires Marked(m, place, p)
    ensures Marked(if x == p then m + {|place|} else m, place + [x], p)
  {
    var place' := place + [x];
    forall t | 0 <= t < |place'| && place'[t] == p && t < |place|
      ensures t in m
    {
      assert place[t] == p;
    }
  }

  lemma MarkedSet(m: set<TaskId>, place: seq<Place>, p: Place, t: TaskId, x: Place)
    requires Marked(m, place, p) && t < |place|
    ensures x == p ==> Marked(m + {t}, place[t := x], p)
    ensures x != p && place[t] == p ==> Marked(m - {t}, place[t := x], p)
    ensures x != p && place[t] != p ==> Marked(m, place[t := x], p)
  {
  }

  // ---------- the functions workers hold ----------

  predicate Holds(pc: Pc, t: TaskId) {
    (pc.Took? || pc.Running?) && pc.task == t
  }

  ghost predicate Held(ws: Workers, place: seq<Place>) {
    && (forall w :: w in ws && (ws[w].pc.Took? || ws[w].pc.Running?) ==>
          ws[w].pc.task < |place| && place[ws[w].pc.task] == With(w))
    && (forall t :: 0 <= t < |place| && place[t].With? ==> place[t].w in ws && Holds(ws[place[t].w].pc, t))
  }

  lemma HeldGrow(ws: Workers, place: seq<Place>, x: Place)
    requires Held(ws, place) && !x.With?
    ensures Held(ws, place + [x])
  {
  }

  lemma HeldElsewhere(ws: Workers, place: seq<Place>, t: TaskId, x: Place)
    requires Held(ws, place) && t < |place| && !place[t].With? && !x.With?
    ensures Held(ws, place[t := x])
  {
  }

  lemma HeldTake(ws: Workers, place: seq<Place>, w: WorkerKey, v: Worker, t: TaskId)
    requires Held(ws, place) && w in ws && ws[w].pc.Polling? && v.pc == Took(t)
    requires t < |place| && !place[t].With?
    ensures Held(ws[w := v], place[t := With(w)])
  {
  }

  lemma HeldBegin(ws: Workers, place: seq<Place>, w: WorkerKey, v: Worker)
    requires Held(ws, place) && w in ws && ws[w].pc.Took? && v.pc == Running(ws[w].pc.task)
    ensures Held(ws[w := v], place)
  {
  }

  lemma HeldEnd(ws: Workers, place: seq<Place>, w: WorkerKey, v: Worker)
    requires Held(ws, place) && w in ws && ws[w].pc.Running? && v.pc.Ended?
    ensures ws[w].pc.task < |place| && Held(ws[w := v], place[ws[w].pc.task := Done])
  {
    var t := ws[w].pc.task;
    var ws', place' := ws[w := v], place[t := Done];
    forall u | 0 <= u < |place'| && place'[u].With?
      ensures place'[u].w in ws' && Holds(ws'[place'[u].w].pc, u)
    {
      assert place[u].With?;
    }
  }

  /** A worker with empty hands, old or new, does something else or leaves. */
  lemma HeldFree(ws: Workers, place: seq<Place>, w: WorkerKey, v: Worker)
    requires Held(ws, place) && (w in ws ==> ws[w].pc.Polling? || ws[w].pc.Ended?) && v.pc.Polling?
    ensures Held(ws[w := v], place) && Held(ws - {w}, place)
  {
  }

  // ---------- how often each function was called ----------

  predicate Started(ws: Workers, place: seq<Place>, t: TaskId)
    requires t < |place|
  {
    match place[t]
    case Queued => false
    case Dropped => false
    case Direct => true
    case Done => true
    case With(w) => w in ws && ws[w].pc == Running(t)
  }

  /** A function has been called iff it is past being taken, and has ended iff it is done; never twice. */
  ghost predicate Counted(ws: Workers, place: seq<Place>, starts: seq<nat>, ends: seq<nat>) {
    && |starts| == |place| == |ends|
    && (forall t :: 0 <= t < |place| ==> starts[t] == if Started(ws, place, t) then 1 else 0)
    && (forall t :: 0 <= t < |place| ==> ends[t] == if place[t] == Done then 1 else 0)
  }

  lemma CountedGrow(ws: Workers, place: seq<Place>, starts: seq<nat>, ends: seq<nat>, x: Place)
    requires Counted(ws, place, starts, ends) && (x == Queued || x == Direct)
    ensures Counted(ws, place + [x], starts + [if x == Direct then 1 else 0], ends + [0])
  {
    var place', starts' := place + [x], starts + [if x == Direct then 1 else 0];
    forall t | 0 <= t < |place'|
      ensures starts'[t] == if Started(ws, place', t) then 1 else 0
    {
      if t < |place| { assert Started(ws, place', t) == Started(ws, place, t); }
    }
  }

  /** Any other step: one function and one worker change, and the counts change as the place does. */
  lemma CountedStep(
    ws: Workers, ws': Workers, place: seq<Place>, starts: seq<nat>, ends: seq<nat>,
    t: TaskId, x: Place, starts': seq<nat>, ends': seq<nat>)
    requires Counted(ws, place, starts, ends) && t < |place|
    requires forall u :: 0 <= u < |place| && u != t && place[u].With? ==>
               Started(ws', place, u) == Started(ws, place, u)
    requires starts' == starts[t := if Started(ws', place[t := x], t) then 1 else 0]
    requires ends' == ends[t := if x == Done then 1 else 0]
    ensures Counted(ws', place[t := x], starts', ends')
  {
    var place' := place[t := x];
    forall u | 0 <= u < |place'|
      ensures starts'[u] == if Started(ws', place', u) then 1 else 0
    {
      if u != t { assert Started(ws', place', u) == Started(ws, place, u); }
    }
  }

  lemma CountedSame(ws: Workers, ws': Workers, place: seq<Place>, starts: seq<nat>, ends: seq<nat>)
    requires Counted(ws, place, starts, ends)
    requires forall u :: 0 <= u < |place| && place[u].With? ==> Started(ws', place, u) == Started(ws, place, u)
    ensures Counted(ws', place, starts, ends)
  {
    forall u | 0 <= u < |place|
      ensures starts[u] == if Started(ws', place, u) then 1 else 0
    {
      assert Started(ws', place, u) == Started(ws, place, u);
    }
  }

  // ---------- loads ----------

  predicate Loaded(v: Worker) {
    v.pc.Running? || v.pc.Ended?
  }

  ghost function LoadedWith(ws: Workers, id: int): set<WorkerKey> {
    set w | w in ws && ws[w].id == id && Loaded(ws[w])
  }

  ghost predicate LoadsMatch(ws: Workers, loads: seq<int>) {
    forall i :: 0 <= i < |loads| ==> loads[i] == |LoadedWith(ws, i)|
  }

  /** A worker that is not loaded, before or after, moves no counter. */
  lemma LoadsSame(ws: Workers, loads: seq<int>, w: WorkerKey, v: Worker)
    requires LoadsMatch(ws, loads)
    requires w in ws ==> Loaded(ws[w]) == Loaded(v) && (Loaded(v) ==> ws[w].id == v.id)
    requires w !in ws ==> !Loaded(v)
    ensures LoadsMatch(ws[w := v], loads)
    ensures !Loaded(v) ==> LoadsMatch(ws - {w}, loads)
  {
    forall i | 0 <= i < |loads|
      ensures loads[i] == |LoadedWith(ws[w := v], i)|
      ensures !Loaded(v) ==> loads[i] == |LoadedWith(ws - {w}, i)|
    {
      assert LoadedWith(ws[w := v], i) == LoadedWith(ws, i);
      if !Loaded(v) { assert LoadedWith(ws - {w}, i) == LoadedWith(ws, i); }
    }
  }

  lemma LoadsUp(ws: Workers, loads: seq<int>, w: WorkerKey, v: Worker)
    requires LoadsMatch(ws, loads) && w in ws && !Loaded(ws[w]) && Loaded(v) && v.id == ws[w].id
    ensures LoadsMatch(ws[w := v], AddLoad(loads, v.id, 1))
  {
    forall i | 0 <= i < |loads|
      ensures AddLoad(loads, v.id, 1)[i] == |LoadedWith(ws[w := v], i)|
    {
      if i == v.id {
        assert LoadedWith(ws[w := v], i) == LoadedWith(ws, i) + {w};
      } else {
        assert LoadedWith(ws[w := v], i) == LoadedWith(ws, i);
      }
    }
  }

  lemma LoadsDown(ws: Workers, loads: seq<int>, w: WorkerKey, v: Worker)
    requires LoadsMatch(ws, loads) && w in ws && Loaded(ws[w]) && !Loaded(v) && v.id == ws[w].id
    ensures LoadsMatch(ws[w := v], AddLoad(loads, v.id, -1))
  {
    forall i | 0 <= i < |loads|
      ensures AddLoad(loads, v.id, -1)[i] == |LoadedWith(ws[w := v], i)|
    {
      if i == v.id {
        assert LoadedWith(ws, i) == LoadedWith(ws[w := v], i) + {w};
      } else {
        assert LoadedWith(ws[w := v], i) == LoadedWith(ws, i);
      }
    }
  }

  // ---------- the invariant ----------

  ghost predicate QueueInv(s: State) {
    Queues(s.queue, s.place) && |s.queue| <= s.cap
  }

  ghost predicate WorkerInv(s: State) {
    Held(s.workers, s.place) && forall w :: w in s.workers ==> w < s.nextWorker
  }

  ghost predicate SetInv(s: State) {
    Marked(s.direct, s.place, Direct) && Marked(s.dropped, s.place, Dropped) && (s.dropped != {} ==> s.stopping)
  }

  ghost predicate CountInv(s: State) {
    Counted(s.workers, s.place, s.starts, s.ends)
  }

  ghost predicate LoadInv(s: State) {
    LoadsMatch(s.workers, s.loads)
  }

  ghost predicate Inv(s: State) {
    QueueInv(s) && WorkerInv(s) && SetInv(s) && CountInv(s) && LoadInv(s)
  }

  lemma InvInit(pool: bool, cap: nat, maxWorkers: nat)
    ensures Inv(Init(pool, cap, maxWorkers))
  {
    var s := Init(pool, cap, maxWorkers);
    forall i | 0 <= i < |s.loads|
      ensures s.loads[i] == |LoadedWith(s.workers, i)|
    {
      assert LoadedWith(s.workers, i) == {};
    }
  }

  lemma QueueStep(s: State, a: Action)
    requires Enabled(s, a) && QueueInv(s) && WorkerInv(s) && SetInv(s)
    ensures QueueInv(Apply(s, a))
  {
    match a
    case Submit => QueuesGrow(s.queue, s.place, if s.pool && |s.queue| < s.cap then Queued else Direct);
    case DirectEnd(t) => QueuesElsewhere(s.queue, s.place, t, Done);
    case Take(w) => QueuesPop(s.queue, s.place, With(w));
    case Drain => QueuesPop(s.queue, s.place, Dropped);
    case End(w) => QueuesElsewhere(s.queue, s.place, s.workers[w].pc.task, Done);
    case _ =>
  }

  lemma WorkerTaskStep(s: State, a: Action)
    requires Enabled(s, a) && QueueInv(s) && WorkerInv(s) && SetInv(s)
    requires a.Submit? || a.DirectEnd? || a.Take? || a.Begin? || a.End? || a.Drain?
    ensures WorkerInv(Apply(s, a))
  {
    match a
    case Submit => HeldGrow(s.workers, s.place, if s.pool && |s.queue| < s.cap then Queued else Direct);
    case DirectEnd(t) => HeldElsewhere(s.workers, s.place, t, Done);
    case Take(w) => HeldTake(s.workers, s.place, w, s.workers[w].(pc := Took(s.queue[0])), s.queue[0]);
    case Begin(w) => HeldBegin(s.workers, s.place, w, s.workers[w].(pc := Running(s.workers[w].pc.task)));
    case End(w) => HeldEnd(s.workers, s.place, w, s.workers[w].(pc := Ended(s.workers[w].pc.task)));
    case Drain => HeldElsewhere(s.workers, s.place, s.queue[0], Dropped);
  }

  lemma WorkerStep(s: State, a: Action)
    requires Enabled(s, a) && QueueInv(s) && WorkerInv(s) && SetInv(s)
    ensures WorkerInv(Apply(s, a))
  {
    match a
    case Idle(w) => HeldFree(s.workers, s.place, w, Polled(s.workers[w]));
    case Exit(w) => HeldFree(s.workers, s.place, w, s.workers[w]);
    case Release(w) => HeldFree(s.workers, s.place, w, Served(s.workers[w]));
    case Recycle(w) =>
      HeldFree(s.workers, s.place, w, s.workers[w]);
      HeldFree(s.workers - {w}, s.place, s.nextWorker, NewWorker(s.numWorkers));
    case Panic(w) => HeldFree(s.workers, s.place, w, s.workers[w]);
    case RunScheduled => HeldFree(s.workers, s.place, s.nextWorker, NewWorker(s.numWorkers));
    case Spawn => HeldFree(s.workers, s.place, s.nextWorker, NewWorker(s.numWorkers));
    case SetNumWorkers(_) =>
    case Stop =>
    case Close =>
    case _ => WorkerTaskStep(s, a);
  }

  lemma SetStep(s: State, a: Action)
    requires Enabled(s, a) && QueueInv(s) && WorkerInv(s) && SetInv(s)
    ensures SetInv(Apply(s, a))
  {
    match a
    case Submit =>
      var x := if s.pool && |s.queue| < s.cap then Queued else Direct;
      MarkedGrow(s.direct, s.place, Direct, x);
      MarkedGrow(s.dropped, s.place, Dropped, x);
    case DirectEnd(t) => MarkedBoth(s.direct, s.dropped, s.place, t, Done);
    case Take(w) => MarkedBoth(s.direct, s.dropped, s.place, s.queue[0], With(w));
    case End(w) => MarkedBoth(s.direct, s.dropped, s.place, s.workers[w].pc.task, Done);
    case Drain => MarkedBoth(s.direct, s.dropped, s.place, s.queue[0], Dropped);
    case _ =>
  }

  lemma MarkedBoth(direct: set<TaskId>, dropped: set<TaskId>, place: seq<Place>, t: TaskId, x: Place)
    requires Marked(direct, place, Direct) && Marked(dropped, place, Dropped)
    requires t < |place| && place[t] != Dropped && x != Direct
    ensures Marked(if place[t] == Direct then direct - {t} else direct, place[t := x], Direct)
    ensures Marked(if x == Dropped then dropped + {t} else dropped, place[t := x], Dropped)
  {
    MarkedSet(direct, place, Direct, t, x);
    MarkedSet(dropped, place, Dropped, t, x);
  }

  /** A step of one worker leaves what the others are running. */
  lemma StartedElsewhere(ws: Workers, place: seq<Place>, w: WorkerKey, v: Worker, u: TaskId)
    requires u < |place| && place[u] != With(w)
    ensures Started(ws[w := v], place, u) == Started(ws, place, u) == Started(ws - {w}, place, u)
  {
  }

  lemma CountMove(s: State, w: WorkerKey, v: Worker, t: TaskId, x: Place, starts': seq<nat>, ends': seq<nat>)
    requires WorkerInv(s) && CountInv(s) && t < |s.place| && w in s.workers
    requires forall u :: 0 <= u < |s.place| && s.place[u] == With(w) ==> u == t
    requires starts' == s.starts[t := if Started(s.workers[w := v], s.place[t := x], t) then 1 else 0]
    requires ends' == s.ends[t := if x == Done then 1 else 0]
    ensures Counted(s.workers[w := v], s.place[t := x], starts', ends')
  {
    forall u | 0 <= u < |s.place| && u != t && s.place[u].With?
      ensures Started(s.workers[w := v], s.place, u) == Started(s.workers, s.place, u)
    {
      StartedElsewhere(s.workers, s.place, w, v, u);
    }
    CountedStep(s.workers, s.workers[w := v], s.place, s.starts, s.ends, t, x, starts', ends');
  }

  /** A worker with empty hands changes no count, whatever it does. */
  lemma CountFree(s: State, ws: Workers, w: WorkerKey, v: Worker)
    requires Held(ws, s.place) && Counted(ws, s.place, s.starts, s.ends)
    requires w in ws ==> ws[w].pc.Polling? || ws[w].pc.Ended?
    ensures Counted(ws[w := v], s.place, s.starts, s.ends) && Counted(ws - {w}, s.place, s.starts, s.ends)
  {
    forall u | 0 <= u < |s.place| && s.place[u].With?
      ensures Started(ws[w := v], s.place, u) == Started(ws, s.place, u) == Started(ws - {w}, s.place, u)
    {
      StartedElsewhere(ws, s.place, w, v, u);
    }
    CountedSame(ws, ws[w := v], s.place, s.starts, s.ends);
    CountedSame(ws, ws - {w}, s.place, s.starts, s.ends);
  }

  lemma CountTaskStep(s: State, a: Action)
    requires Enabled(s, a) && Inv(s) && (a.Submit? || a.DirectEnd? || a.Drain?)
    ensures CountInv(Apply(s, a))
  {
    var ws, place, starts, ends := s.workers, s.place, s.starts, s.ends;
    match a
    case Submit => CountedGrow(ws, place, starts, ends, if s.pool && |s.queue| < s.cap then Queued else Direct);
    case DirectEnd(t) => CountedStep(ws, ws, place, starts, ends, t, Done, starts, ends[t := ends[t] + 1]);
    case Drain => CountedStep(ws, ws, place, starts, ends, s.queue[0], Dropped, starts, ends);
  }

  lemma CountTake(s: State, a: Action)
    requires Enabled(s, a) && Inv(s) && a.Take?
    ensures CountInv(Apply(s, a))
  {
    CountMove(s, a.w, s.workers[a.w].(pc := Took(s.queue[0])), s.queue[0], With(a.w), s.starts, s.ends);
  }

  lemma CountBegin(s: State, a: Action)
    requires Enabled(s, a) && Inv(s) && a.Begin?
    ensures CountInv(Apply(s, a))
  {
    var t := s.workers[a.w].pc.task;
    CountMove(s, a.w, s.workers[a.w].(pc := Running(t)), t, With(a.w), s.starts[t := s.starts[t] + 1], s.ends);
  }

  lemma CountEnd(s: State, a: Action)
    requires Enabled(s, a) && Inv(s) && a.End?
    ensures CountInv(Apply(s, a))
  {
    var t := s.workers[a.w].pc.task;
    CountMove(s, a.w, s.workers[a.w].(pc := Ended(t)), t, Done, s.starts, s.ends[t := s.ends[t] + 1]);
  }

  lemma CountStep(s: State, a: Action)
    requires Enabled(s, a) && Inv(s)
    ensures CountInv(Apply(s, a))
  {
    match a
    case Idle(w) => CountFree(s, s.workers, w, Polled(s.workers[w]));
    case Exit(w) => CountFree(s, s.workers, w, s.workers[w]);
    case Release(w) => CountFree(s, s.workers, w, Served(s.workers[w]));
    case Recycle(w) =>
      CountFree(s, s.workers, w, s.workers[w]);
      HeldFree(s.workers, s.place, w, s.workers[w]);
      CountFree(s, s.workers - {w}, s.nextWorker, NewWorker(s.numWorkers));
    case Panic(w) => CountFree(s, s.workers, w, s.workers[w]);
    case RunScheduled => CountFree(s, s.workers, s.nextWorker, NewWorker(s.numWorkers));
    case Spawn => CountFree(s, s.workers, s.nextWorker, NewWorker(s.numWorkers));
    case SetNumWorkers(_) =>
    case Stop =>
    case Close =>
    case Take(_) => CountTake(s, a);
    case Begin(_) => CountBegin(s, a);
    case End(_) => CountEnd(s, a);
    case _ => CountTaskStep(s, a);
  }

  lemma LoadStep(s: State, a: Action)
    requires Enabled(s, a) && WorkerInv(s) && LoadInv(s)
    ensures LoadInv(Apply(s, a))
  {
    match a
    case Take(w) => LoadsSame(s.workers, s.loads, w, s.workers[w].(pc := Took(s.queue[0])));
    case Idle(w) => LoadsSame(s.workers, s.loads, w, Polled(s.workers[w]));
    case Exit(w) => LoadsSame(s.workers, s.loads, w, s.workers[w]);
    case Begin(w) => LoadsUp(s.workers, s.loads, w, s.workers[w].(pc := Running(s.workers[w].pc.task)));
    case End(w) => LoadsSame(s.workers, s.loads, w, s.workers[w].(pc := Ended(s.workers[w].pc.task)));
    case Release(w) => LoadsDown(s.workers, s.loads, w, Served(s.workers[w]));
    case Recycle(w) =>
      LoadsSame(s.workers, s.loads, w, s.workers[w]);
      LoadsSame(s.workers - {w}, s.loads, s.nextWorker, NewWorker(s.numWorkers));
    case Panic(w) => LoadsSame(s.workers, s.loads, w, s.workers[w]);
    case RunScheduled => LoadsSame(s.workers, s.loads, s.nextWorker, NewWorker(s.numWorkers));
    case Spawn => LoadsSame(s.workers, s.loads, s.nextWorker, NewWorker(s.numWorkers));
    case _ =>
  }

  lemma InvStep(s: State, a: Action)
    requires Enabled(s, a) && Inv(s)
    ensures Inv(Apply(s, a))
  {
    QueueStep(s, a);
    WorkerStep(s, a);
    SetStep(s, a);
    CountStep(s, a);
    LoadStep(s, a);
  }

  lemma {:induction false} InvReaches(s: State, run: seq<Action>, s': State)
    requires Inv(s) && Reaches(s, run, s')
    ensures Inv(s')
    decreases |run|
  {
    if run != [] {
      InvStep(s, run[0]);
      InvReaches(Apply(s, run[0]), run[1..], s');
    }
  }
}
