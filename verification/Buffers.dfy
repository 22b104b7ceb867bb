/** Reference-counted buffers (mem/buffer.go) as a heap of handles, counters and backing arrays, with the three
    pools that recycle them. Pointers are indices, so handles share counters and backings as in the code. */
module Buffers {
  import opened Bytes
  import opened Results

  type HandleId = nat
  type CounterId = nat
  type BackingId = nat

  /** A buffer struct: blank once recycled, else a window lo..hi of a backing, and a shared counter. */
  datatype Handle = Blank | Window(origin: BackingId, lo: nat, hi: nat, refs: CounterId)

  datatype Heap = Heap(
    handles: seq<Handle>,
    counters: seq<int>,
    stores: seq<bytes>,
    freeHandles: multiset<HandleId>,     // bufferObjectPool
    freeCounters: multiset<CounterId>,   // refObjectPool
    pooled: multiset<BackingId>,         // the buffer pool
    // history: references given out and not freed, per counter and by the handle they were given through;
    // the backing of each counter and the counter in use on each backing; how often each backing was
    // wrapped by NewBuffer and put back by Free
    held: seq<multiset<HandleId>>,
    backing: seq<BackingId>,
    owner: seq<Option<CounterId>>,
    wrapped: seq<nat>,
    returned: seq<nat>)

  const EmptyHeap := Heap([], [], [], multiset{}, multiset{}, multiset{}, [], [], [], [], [])

  // ---- queries

  /** The caller has a reference through handle h. */
  predicate Live(m: Heap, h: HandleId) {
    h < |m.handles| && m.handles[h].Window? && m.handles[h].refs < |m.held| && h in m.held[m.handles[h].refs]
  }

  /** References outstanding through handle h. */
  function Owed(m: Heap, h: HandleId): nat {
    if Live(m, h) then m.held[m.handles[h].refs][h] else 0
  }

  /** ReadOnlyData */
  function Data(m: Heap, h: HandleId): bytes
    requires Inv(m) && Live(m, h)
  {
    var w := m.handles[h];
    assert HandleOk(m, w.refs, h);
    m.stores[w.origin][w.lo..w.hi]
  }

  /** A backing that was got from the pool and is with neither the pool nor a buffer. */
  predicate Lent(m: Heap, k: BackingId) { k < |m.owner| && m.owner[k] == None && k !in m.pooled }

  // ---- what every operation keeps

  predicate HandleOk(m: Heap, c: CounterId, h: HandleId)
    requires c < |m.backing|
  {
    && h < |m.handles| && h !in m.freeHandles
    && m.handles[h].Window? && m.handles[h].refs == c && m.handles[h].origin == m.backing[c]
    && m.backing[c] < |m.stores| && m.handles[h].lo <= m.handles[h].hi <= |m.stores[m.backing[c]]|
  }

  /** A counter with references: it is not recycled, its handles are windows of its backing, and the backing
      is in no pool and under no other counter. */
  ghost predicate CounterOk(m: Heap, c: CounterId)
    requires c < |m.held| == |m.backing|
  {
    && c !in m.freeCounters
    && m.backing[c] < |m.stores| && m.backing[c] < |m.owner| && m.owner[m.backing[c]] == Some(c)
    && m.backing[c] !in m.pooled
    && (forall h :: h in m.held[c] ==> HandleOk(m, c, h))
  }

  /** A counter is the number of references out over all its handles. */
  ghost predicate CountsOk(m: Heap) {
    && |m.counters| == |m.held| == |m.backing|
    && (forall c :: 0 <= c < |m.counters| ==> m.counters[c] == |m.held[c]|)
  }

  ghost predicate CountersOk(m: Heap) {
    && |m.held| == |m.backing|
    && (forall c :: 0 <= c < |m.held| && m.held[c] != multiset{} ==> CounterOk(m, c))
  }

  /** What is recycled is blank and was recycled once. */
  ghost predicate RecycledOk(m: Heap) {
    && (forall c :: c in m.freeCounters ==> c < |m.held| && m.freeCounters[c] == 1 && m.held[c] == multiset{})
    && (forall h :: h in m.freeHandles ==> h < |m.handles| && m.freeHandles[h] == 1 && m.handles[h].Blank?)
    && (forall k :: k in m.pooled ==> k < |m.owner| && m.pooled[k] == 1 && m.owner[k] == None)
  }

  /** Every NewBuffer is answered by one return to the pool, made when its last reference goes. */
  ghost predicate LedgerOk(m: Heap) {
    && |m.stores| == |m.owner| == |m.wrapped| == |m.returned|
    && (forall k :: 0 <= k < |m.owner| && m.owner[k].Some? ==>
          && m.owner[k].value < |m.held| == |m.backing|
          && m.held[m.owner[k].value] != multiset{} && m.backing[m.owner[k].value] == k)
    && (forall k :: 0 <= k < |m.owner| ==> m.wrapped[k] == m.returned[k] + (if m.owner[k].Some? then 1 else 0))
  }

  ghost predicate Inv(m: Heap) {
    CountsOk(m) && CountersOk(m) && RecycledOk(m) && LedgerOk(m)
  }

  /** Heaps that keep the invariant. */
  type GoodHeap = m: Heap | Inv(m) ghost witness EmptyHeap

  // ---- operations

  /** Taking a recycled handle, or a new one. */
  predicate CanTakeHandle(m: Heap, h: HandleId) { h in m.freeHandles || h == |m.handles| }

  function PlaceHandle(m: Heap, h: HandleId, w: Handle): Heap
    requires CanTakeHandle(m, h) && h <= |m.handles|
  {
    if h < |m.handles| then m.(handles := m.handles[h := w], freeHandles := m.freeHandles - multiset{h})
    else m.(handles := m.handles + [w])
  }

  datatype Op =
    | Get(k: BackingId, contents: bytes)               // pool.Get; the contents may be left over
    | Fill(k: BackingId, contents: bytes)              // the one who got it writes or reslices
    | PutBack(k: BackingId)                            // pool.Put of a backing that was not wrapped
    | NewBuffer(k: BackingId, h: HandleId, c: CounterId)
    | Ref(h: HandleId)
    | Free(h: HandleId)
    | Split(h: HandleId, n: nat, right: HandleId)
    | Read(h: HandleId, want: nat)

  /** What the caller must respect: references are used and freed by those who have them, and a backing is
      wrapped by the one who got it. */
  ghost predicate Allowed(m: Heap, op: Op) {
    match op
    case Get(k, contents) => k in m.pooled || k == |m.stores|
    case Fill(k, contents) => Lent(m, k)
    case PutBack(k) => Lent(m, k)
    case NewBuffer(k, h, c) =>
      && Lent(m, k)
      && CanTakeHandle(m, h) && (c in m.freeCounters || c == |m.counters|)
    case Ref(h) => Live(m, h)
    case Free(h) => Live(m, h)
    case Split(h, n, right) => Live(m, h) && n <= |LiveData(m, h)| && CanTakeHandle(m, right)
    case Read(h, want) => Live(m, h)
  }

  ghost function LiveData(m: Heap, h: HandleId): bytes {
    if Inv(m) && Live(m, h) then Data(m, h) else []
  }

  /** The pool hands out a backing; what is in it is the caller's business. */
  function Got(m: Heap, k: BackingId, contents: bytes): Heap
    requires k <= |m.stores|
  {
    if k < |m.stores| then m.(stores := m.stores[k := contents], pooled := m.pooled - multiset{k})
    else m.(stores := m.stores + [contents], owner := m.owner + [None], wrapped := m.wrapped + [0],
            returned := m.returned + [0])
  }

  function Filled(m: Heap, k: BackingId, contents: bytes): Heap
    requires k < |m.stores|
  {
    m.(stores := m.stores[k := contents])
  }

  function PutInPool(m: Heap, k: BackingId): Heap { m.(pooled := m.pooled + multiset{k}) }

  /** NewBuffer: a handle on the whole slice and a counter, which starts from what it held and is one up. */
  function Wrapped(m: Heap, k: BackingId, h: HandleId, c: CounterId): Heap
    requires k < |m.stores| == |m.wrapped| == |m.owner| && CanTakeHandle(m, h) && h <= |m.handles|
    requires c <= |m.counters| == |m.held| == |m.backing|
  {
    var m1 := PlaceHandle(m, h, Window(k, 0, |m.stores[k]|, c));
    var m2 := m1.(wrapped := m.wrapped[k := m.wrapped[k] + 1], owner := m.owner[k := Some(c)]);
    if c < |m.counters| then
      m2.(counters := m.counters[c := m.counters[c] + 1], freeCounters := m.freeCounters - multiset{c},
          held := m.held[c := m.held[c] + multiset{h}], backing := m.backing[c := k])
    else
      m2.(counters := m.counters + [1], held := m.held + [multiset{h}], backing := m.backing + [k])
  }

  function Reffed(m: Heap, h: HandleId): Heap
    requires Live(m, h) && |m.counters| == |m.held|
  {
    var c := m.handles[h].refs;
    m.(counters := m.counters[c := m.counters[c] + 1], held := m.held[c := m.held[c] + multiset{h}])
  }

  /** Free: the last reference returns the backing and recycles the counter and this handle. */
  function Freed(m: Heap, h: HandleId): Heap
    requires Live(m, h) && |m.counters| == |m.held| && m.handles[h].origin < |m.returned| == |m.owner|
  {
    var w := m.handles[h];
    var c := w.refs;
    var m1 := m.(counters := m.counters[c := m.counters[c] - 1], held := m.held[c := m.held[c] - multiset{h}]);
    if m1.counters[c] > 0 then m1 else
    m1.(pooled := m.pooled + multiset{w.origin}, returned := m.returned[w.origin := m.returned[w.origin] + 1],
        owner := m.owner[w.origin := None],
        freeCounters := m.freeCounters + multiset{c}, handles := m.handles[h := Blank],
        freeHandles := m.freeHandles + multiset{h})
  }

  function SplitAt(m: Heap, h: HandleId, n: nat, right: HandleId): Heap
    requires Live(m, h) && |m.counters| == |m.held| && CanTakeHandle(m, right) && right <= |m.handles| && right != h
    requires m.handles[h].lo + n <= m.handles[h].hi
  {
    var w := m.handles[h];
    var c := w.refs;
    var m1 := PlaceHandle(m, right, Window(w.origin, w.lo + n, w.hi, c));
    m1.(handles := m1.handles[h := w.(hi := w.lo + n)], counters := m.counters[c := m.counters[c] + 1],
        held := m.held[c := m.held[c] + multiset{right}])
  }

  /** read: the window moves on, and the reference is freed when it is exhausted. */
  function ReadFrom(m: Heap, h: HandleId, want: nat): Heap
    requires Live(m, h) && |m.counters| == |m.held|
    requires m.handles[h].origin < |m.returned| == |m.owner| && m.handles[h].lo <= m.handles[h].hi
  {
    var w := m.handles[h];
    if want >= w.hi - w.lo then Freed(m, h) else m.(handles := m.handles[h := w.(lo := w.lo + want)])
  }
}
