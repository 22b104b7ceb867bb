/** Every allowed operation keeps the buffer heap's invariant and every other handle's bytes. */
module BufferSafety {
  import opened Bytes
  import opened Results
  import opened Buffers

  function Do(m: Heap, op: Op): Heap
    requires Inv(m) && Allowed(m, op)
  {
    match op
    case Get(k, contents) => Got(m, k, contents)
    case Fill(k, contents) => Filled(m, k, contents)
    case PutBack(k) => PutInPool(m, k)
    case NewBuffer(k, h, c) => Wrapped(m, k, h, c)
    case Ref(h) => Reffed(m, h)
    case Free(h) => LiveFacts(m, h); Freed(m, h)
    case Split(h, n, right) => LiveFacts(m, h); SplitAt(m, h, n, right)
    case Read(h, want) => LiveFacts(m, h); ReadFrom(m, h, want)
  }

  lemma LiveFacts(m: Heap, h: HandleId)
    requires Inv(m) && Live(m, h)
    ensures var w := m.handles[h];
            && w.origin < |m.stores| == |m.returned| == |m.owner| && w.lo <= w.hi <= |m.stores[w.origin]|
            && w.refs < |m.held| == |m.counters| && w.origin == m.backing[w.refs] && h !in m.freeHandles
            && CounterOk(m, w.refs) && HandleOk(m, w.refs, h)
  {
    var c := m.handles[h].refs;
    assert m.held[c] != multiset{};
    assert CounterOk(m, c);
    assert HandleOk(m, c, h);
  }

  /** A handle just taken is nobody's. */
  lemma TakenIsIdle(m: Heap, h: HandleId, c: CounterId)
    requires Inv(m) && CanTakeHandle(m, h) && c < |m.held|
    ensures h !in m.held[c] && h <= |m.handles|
  {
    assert m.held[c] != multiset{} ==> CounterOk(m, c);
    assert h in m.held[c] ==> HandleOk(m, c, h);
  }

  /** A counter whose handles, backing and pools a step leaves alone. */
  lemma CounterStays(m: Heap, m': Heap, c: CounterId)
    requires c < |m.held| == |m.backing| && CounterOk(m, c)
    requires c < |m'.held| == |m'.backing| && m'.backing[c] == m.backing[c]
    requires forall h :: h in m'.held[c] ==> HandleOk(m', c, h)
    requires c !in m'.freeCounters && m.backing[c] !in m'.pooled
    requires m.backing[c] < |m'.stores| && m.backing[c] < |m'.owner| && m'.owner[m.backing[c]] == m.owner[m.backing[c]]
    ensures CounterOk(m', c)
  {
  }

  lemma GetCounters(m: Heap, k: BackingId, contents: bytes)
    requires Inv(m) && Allowed(m, Get(k, contents))
    ensures CountersOk(Got(m, k, contents))
  {
    var m' := Got(m, k, contents);
    forall c | 0 <= c < |m'.held| && m'.held[c] != multiset{} ensures CounterOk(m', c) {
      assert CounterOk(m, c);
      assert m.backing[c] != k;
      forall h | h in m'.held[c] ensures HandleOk(m', c, h) {
        assert HandleOk(m, c, h);
      }
      CounterStays(m, m', c);
    }
  }

  lemma GetKeeps(m: Heap, k: BackingId, contents: bytes)
    requires Inv(m) && Allowed(m, Get(k, contents))
    ensures Inv(Got(m, k, contents))
  {
    GetCounters(m, k, contents);
    assert RecycledOk(Got(m, k, contents));
  }

  lemma FillKeeps(m: Heap, k: BackingId, contents: bytes)
    requires Inv(m) && Lent(m, k)
    ensures Inv(Filled(m, k, contents))
  {
    var m' := Filled(m, k, contents);
    forall c | 0 <= c < |m'.held| && m'.held[c] != multiset{} ensures CounterOk(m', c) {
      assert CounterOk(m, c);
      forall h | h in m'.held[c] ensures HandleOk(m', c, h) {
        assert HandleOk(m, c, h);
      }
      CounterStays(m, m', c);
    }
  }

  lemma PutBackKeeps(m: Heap, k: BackingId)
    requires Inv(m) && Lent(m, k)
    ensures Inv(PutInPool(m, k))
  {
    var m' := PutInPool(m, k);
    forall c | 0 <= c < |m'.held| && m'.held[c] != multiset{} ensures CounterOk(m', c) {
      assert CounterOk(m, c);
      forall h | h in m'.held[c] ensures HandleOk(m', c, h) {
        assert HandleOk(m, c, h);
      }
      CounterStays(m, m', c);
    }
  }

  lemma RefKeeps(m: Heap, h: HandleId)
    requires Inv(m) && Live(m, h)
    ensures |m.counters| == |m.held| && Inv(Reffed(m, h))
  {
    LiveFacts(m, h);
    var m' := Reffed(m, h);
    forall c | 0 <= c < |m'.held| && m'.held[c] != multiset{} ensures CounterOk(m', c) {
      assert m.held[c] != multiset{};
      assert CounterOk(m, c);
      forall g | g in m'.held[c] ensures HandleOk(m', c, g) {
        assert HandleOk(m, c, g);
      }
    }
  }

  /** The parts of the heap NewBuffer leaves alone, seen from another counter. */
  lemma WrapOther(m: Heap, k: BackingId, h: HandleId, c: CounterId, d: CounterId)
    requires Inv(m) && Allowed(m, NewBuffer(k, h, c)) && d < |m.held| && d != c && m.held[d] != multiset{}
    ensures CounterOk(Wrapped(m, k, h, c), d)
  {
    var m' := Wrapped(m, k, h, c);
    assert CounterOk(m, d);
    assert m.backing[d] != k;
    TakenIsIdle(m, h, d);
    forall g | g in m'.held[d] ensures HandleOk(m', d, g) {
      assert HandleOk(m, d, g);
    }
    CounterStays(m, m', d);
  }

  lemma WrapNew(m: Heap, k: BackingId, h: HandleId, c: CounterId)
    requires Inv(m) && Allowed(m, NewBuffer(k, h, c))
    ensures var m' := Wrapped(m, k, h, c);
            c < |m'.held| == |m'.backing| && m'.held[c] == multiset{h} && CounterOk(m', c)
  {
    WrapHandle(m, k, h, c);
    WrapCounter(m, k, h, c);
    assert HandleOk(Wrapped(m, k, h, c), c, h);
  }

  lemma WrapHandle(m: Heap, k: BackingId, h: HandleId, c: CounterId)
    requires Inv(m) && Allowed(m, NewBuffer(k, h, c))
    ensures var m' := Wrapped(m, k, h, c);
            && h < |m'.handles| && m'.handles[h] == Window(k, 0, |m.stores[k]|, c)
            && m'.freeHandles == m.freeHandles - multiset{h} && h !in m'.freeHandles
            && |m.handles| <= |m'.handles|
            && forall g :: 0 <= g < |m.handles| && g != h ==> m'.handles[g] == m.handles[g]
  {
    PlaceTakes(m, h, Window(k, 0, |m.stores[k]|, c));
  }

  /** A handle placed in the heap is out of the pool of handles. */
  lemma PlaceTakes(m: Heap, h: HandleId, w: Handle)
    requires RecycledOk(m) && CanTakeHandle(m, h) && h <= |m.handles|
    ensures var m' := PlaceHandle(m, h, w);
            && h < |m'.handles| && m'.handles[h] == w
            && m'.freeHandles == m.freeHandles - multiset{h} && h !in m'.freeHandles
            && |m.handles| <= |m'.handles|
            && forall g :: 0 <= g < |m.handles| && g != h ==> m'.handles[g] == m.handles[g]
  {
    assert h in m.freeHandles ==> m.freeHandles[h] == 1;
  }

  lemma WrapCounter(m: Heap, k: BackingId, h: HandleId, c: CounterId)
    requires Inv(m) && Allowed(m, NewBuffer(k, h, c))
    ensures var m' := Wrapped(m, k, h, c);
            && c < |m'.held| == |m'.backing| && m'.held[c] == multiset{h} && m'.backing[c] == k
            && m'.freeCounters == m.freeCounters - multiset{c} && c !in m'.freeCounters
            && |m.held| <= |m'.held|
            && forall d :: 0 <= d < |m.held| && d != c ==> m'.held[d] == m.held[d] && m'.backing[d] == m.backing[d]
  {
    assert c in m.freeCounters ==> m.freeCounters[c] == 1;
    if c < |m.counters| { WrapReused(m, k, h, c); }
  }

  lemma WrapCounters(m: Heap, k: BackingId, h: HandleId, c: CounterId)
    requires Inv(m) && Allowed(m, NewBuffer(k, h, c))
    ensures CountersOk(Wrapped(m, k, h, c))
  {
    var m' := Wrapped(m, k, h, c);
    forall d | 0 <= d < |m'.held| && m'.held[d] != multiset{} ensures CounterOk(m', d) {
      if d != c { WrapOther(m, k, h, c, d); } else { WrapNew(m, k, h, c); }
    }
  }

  lemma LedgerGrows(m: Heap, m': Heap, k: BackingId, c: CounterId)
    requires LedgerOk(m) && |m.held| == |m.backing| && k < |m.owner| && m.owner[k] == None && c <= |m.held|
    requires c < |m.held| ==> m.held[c] == multiset{}
    requires |m'.held| == |m'.backing| && |m.held| <= |m'.held|
    requires c < |m'.held| && m'.held[c] != multiset{} && m'.backing[c] == k
    requires forall d :: 0 <= d < |m.held| && d != c ==> m'.held[d] == m.held[d] && m'.backing[d] == m.backing[d]
    requires m'.stores == m.stores && m'.owner == m.owner[k := Some(c)] && m'.returned == m.returned
    requires |m'.wrapped| == |m.wrapped| && m'.wrapped == m.wrapped[k := m.wrapped[k] + 1]
    ensures LedgerOk(m')
  {
  }

  lemma WrapLedger(m: Heap, k: BackingId, h: HandleId, c: CounterId)
    requires Inv(m) && Allowed(m, NewBuffer(k, h, c))
    ensures LedgerOk(Wrapped(m, k, h, c))
  {
    WrapCounter(m, k, h, c);
    WrapKept(m, k, h, c);
    LedgerGrows(m, Wrapped(m, k, h, c), k, c);
  }

  lemma WrapKept(m: Heap, k: BackingId, h: HandleId, c: CounterId)
    requires Inv(m) && Allowed(m, NewBuffer(k, h, c))
    ensures var m' := Wrapped(m, k, h, c);
            && m'.stores == m.stores && m'.owner == m.owner[k := Some(c)] && m'.returned == m.returned
            && m'.wrapped == m.wrapped[k := m.wrapped[k] + 1] && (c < |m.held| ==> m.held[c] == multiset{})
  {
  }

  /** The counter came from the counter pool. */
  lemma WrapReused(m: Heap, k: BackingId, h: HandleId, c: CounterId)
    requires Inv(m) && Allowed(m, NewBuffer(k, h, c)) && c < |m.counters|
    ensures m.held[c] == multiset{} && Wrapped(m, k, h, c).held == m.held[c := multiset{h}]
    ensures Wrapped(m, k, h, c).backing == m.backing[c := k]
  {
    assert m.held[c] + multiset{h} == multiset{h};
  }

  lemma WrapRecycled(m: Heap, k: BackingId, h: HandleId, c: CounterId)
    requires Inv(m) && Allowed(m, NewBuffer(k, h, c))
    ensures RecycledOk(Wrapped(m, k, h, c))
  {
    WrapHandle(m, k, h, c);
    WrapCounter(m, k, h, c);
    RecycledShrinks(m, Wrapped(m, k, h, c), k, h, c);
  }

  lemma RecycledShrinks(m: Heap, m': Heap, k: BackingId, h: HandleId, c: CounterId)
    requires RecycledOk(m)
    requires m'.freeCounters == m.freeCounters - multiset{c} && c !in m'.freeCounters
    requires |m.held| <= |m'.held| && forall d :: 0 <= d < |m.held| && d != c ==> m'.held[d] == m.held[d]
    requires m'.freeHandles == m.freeHandles - multiset{h} && h !in m'.freeHandles
    requires |m.handles| <= |m'.handles| && forall g :: 0 <= g < |m.handles| && g != h ==> m'.handles[g] == m.handles[g]
    requires m'.pooled == m.pooled && k < |m.owner| && k !in m.pooled && m'.owner == m.owner[k := Some(c)]
    ensures RecycledOk(m')
  {
    forall d | d in m'.freeCounters ensures d < |m'.held| && m'.freeCounters[d] == 1 && m'.held[d] == multiset{} {
      assert d in m.freeCounters && d != c;
    }
    forall g | g in m'.freeHandles ensures g < |m'.handles| && m'.freeHandles[g] == 1 && m'.handles[g].Blank? {
      assert g in m.freeHandles && g != h;
    }
  }

  lemma WrapCounts(m: Heap, k: BackingId, h: HandleId, c: CounterId)
    requires Inv(m) && Allowed(m, NewBuffer(k, h, c))
    ensures CountsOk(Wrapped(m, k, h, c))
  {
  }

  lemma WrapKeeps(m: Heap, k: BackingId, h: HandleId, c: CounterId)
    requires Inv(m) && Allowed(m, NewBuffer(k, h, c))
    ensures Inv(Wrapped(m, k, h, c))
  {
    WrapCounters(m, k, h, c);
    WrapLedger(m, k, h, c);
    WrapRecycled(m, k, h, c);
    WrapCounts(m, k, h, c);
  }

  lemma Singleton(s: multiset<HandleId>, h: HandleId)
    requires |s| == 1 && h in s
    ensures s == multiset{h}
  {
    assert |s - multiset{h}| == 0;
    assert s == (s - multiset{h}) + multiset{h};
  }

  lemma FreeSome(m: Heap, h: HandleId)
    requires Inv(m) && Live(m, h) && |m.held[m.handles[h].refs]| > 1
    ensures m.handles[h].origin < |m.returned| == |m.owner| && |m.counters| == |m.held| && Inv(Freed(m, h))
  {
    LiveFacts(m, h);
    var m' := Freed(m, h);
    var c := m.handles[h].refs;
    assert |m'.held[c]| == |m.held[c]| - 1;
    forall d | 0 <= d < |m'.held| && m'.held[d] != multiset{} ensures CounterOk(m', d) {
      assert CounterOk(m, d);
      forall g | g in m'.held[d] ensures HandleOk(m', d, g) {
        assert HandleOk(m, d, g);
      }
    }
  }

  lemma LastCounters(m: Heap, h: HandleId)
    requires Inv(m) && Live(m, h) && m.held[m.handles[h].refs] == multiset{h}
    ensures m.handles[h].origin < |m.returned| == |m.owner| && |m.counters| == |m.held| && CountersOk(Freed(m, h))
  {
    LiveFacts(m, h);
    var m' := Freed(m, h);
    var c := m.handles[h].refs;
    assert m'.held[c] == multiset{};
    forall d | 0 <= d < |m'.held| && m'.held[d] != multiset{} ensures CounterOk(m', d) {
      assert d != c && CounterOk(m, d);
      forall g | g in m'.held[d] ensures HandleOk(m', d, g) {
        assert HandleOk(m, d, g);
      }
      CounterStays(m, m', d);
    }
  }

  lemma LastRecycled(m: Heap, h: HandleId)
    requires Inv(m) && Live(m, h) && m.held[m.handles[h].refs] == multiset{h}
    requires m.handles[h].origin < |m.returned| == |m.owner| && |m.counters| == |m.held|
    ensures RecycledOk(Freed(m, h))
  {
    LiveFacts(m, h);
  }

  lemma LastLedger(m: Heap, h: HandleId)
    requires Inv(m) && Live(m, h) && m.held[m.handles[h].refs] == multiset{h}
    requires m.handles[h].origin < |m.returned| == |m.owner| && |m.counters| == |m.held|
    ensures LedgerOk(Freed(m, h)) && CountsOk(Freed(m, h))
  {
    LiveFacts(m, h);
  }

  lemma FreeLast(m: Heap, h: HandleId)
    requires Inv(m) && Live(m, h) && m.held[m.handles[h].refs] == multiset{h}
    ensures m.handles[h].origin < |m.returned| == |m.owner| && |m.counters| == |m.held| && Inv(Freed(m, h))
  {
    LastCounters(m, h);
    LastRecycled(m, h);
    LastLedger(m, h);
  }

  lemma FreeKeeps(m: Heap, h: HandleId)
    requires Inv(m) && Live(m, h)
    ensures m.handles[h].origin < |m.returned| == |m.owner| && |m.counters| == |m.held| && Inv(Freed(m, h))
  {
    LiveFacts(m, h);
    var c := m.handles[h].refs;
    if |m.held[c]| > 1 {
      FreeSome(m, h);
    } else {
      assert |m.held[c]| == 1;
      Singleton(m.held[c], h);
      FreeLast(m, h);
    }
  }

  lemma SplitKeeps(m: Heap, h: HandleId, n: nat, right: HandleId)
    requires Inv(m) && Allowed(m, Split(h, n, right))
    ensures m.handles[h].lo + n <= m.handles[h].hi && right != h && right <= |m.handles| && |m.counters| == |m.held|
    ensures Inv(SplitAt(m, h, n, right))
  {
    LiveFacts(m, h);
    TakenIsIdle(m, right, m.handles[h].refs);
    SplitCounters(m, h, n, right);
    SplitCounts(m, h, n, right);
    SplitRecycled(m, h, n, right);
    SplitLedger(m, h, n, right);
  }

  lemma SplitCounts(m: Heap, h: HandleId, n: nat, right: HandleId)
    requires Inv(m) && Live(m, h) && CanTakeHandle(m, right) && right <= |m.handles| && right != h
    requires m.handles[h].lo + n <= m.handles[h].hi
    ensures CountsOk(SplitAt(m, h, n, right))
  {
    LiveFacts(m, h);
  }

  lemma SplitRecycled(m: Heap, h: HandleId, n: nat, right: HandleId)
    requires Inv(m) && Live(m, h) && CanTakeHandle(m, right) && right <= |m.handles| && right != h
    requires m.handles[h].lo + n <= m.handles[h].hi
    ensures RecycledOk(SplitAt(m, h, n, right))
  {
    LiveFacts(m, h);
  }

  lemma SplitLedger(m: Heap, h: HandleId, n: nat, right: HandleId)
    requires Inv(m) && Live(m, h) && CanTakeHandle(m, right) && right <= |m.handles| && right != h
    requires m.handles[h].lo + n <= m.handles[h].hi
    ensures LedgerOk(SplitAt(m, h, n, right))
  {
    LiveFacts(m, h);
  }

  lemma SplitCounters(m: Heap, h: HandleId, n: nat, right: HandleId)
    requires Inv(m) && Live(m, h) && CanTakeHandle(m, right) && right <= |m.handles| && right != h
    requires m.handles[h].lo + n <= m.handles[h].hi
    ensures CountersOk(SplitAt(m, h, n, right))
  {
    LiveFacts(m, h);
    var m' := SplitAt(m, h, n, right);
    forall d | 0 <= d < |m'.held| && m'.held[d] != multiset{} ensures CounterOk(m', d) {
      assert m.held[d] != multiset{} && CounterOk(m, d);
      TakenIsIdle(m, right, d);
      forall g | g in m'.held[d] ensures HandleOk(m', d, g) {
        if g != right { assert HandleOk(m, d, g); }
      }
      CounterStays(m, m', d);
    }
  }

  lemma ReadKeeps(m: Heap, h: HandleId, want: nat)
    requires Inv(m) && Live(m, h)
    ensures m.handles[h].lo <= m.handles[h].hi
    ensures m.handles[h].origin < |m.returned| == |m.owner| && |m.counters| == |m.held|
    ensures Inv(ReadFrom(m, h, want))
  {
    LiveFacts(m, h);
    if want >= m.handles[h].hi - m.handles[h].lo {
      FreeKeeps(m, h);
    } else {
      var m' := ReadFrom(m, h, want);
      forall d | 0 <= d < |m'.held| && m'.held[d] != multiset{} ensures CounterOk(m', d) {
        assert CounterOk(m, d);
        forall g | g in m'.held[d] ensures HandleOk(m', d, g) {
          assert HandleOk(m, d, g);
        }
      }
    }
  }

  // ---- runs

  lemma DoKeeps(m: Heap, op: Op)
    requires Inv(m) && Allowed(m, op)
    ensures Inv(Do(m, op))
  {
    match op
    case Get(k, contents) => GetKeeps(m, k, contents);
    case Fill(k, contents) => FillKeeps(m, k, contents);
    case PutBack(k) => PutBackKeeps(m, k);
    case NewBuffer(k, h, c) => WrapKeeps(m, k, h, c);
    case Ref(h) => RefKeeps(m, h);
    case Free(h) => FreeKeeps(m, h);
    case Split(h, n, right) => SplitKeeps(m, h, n, right);
    case Read(h, want) => ReadKeeps(m, h, want);
  }

  /** The heap after a sequence of operations each of which its caller was entitled to. */
  ghost predicate Reaches(m: Heap, ops: seq<Op>, m': Heap)
    decreases |ops|
  {
    if ops == [] then m' == m else Inv(m) && Allowed(m, ops[0]) && Reaches(Do(m, ops[0]), ops[1..], m')
  }

  lemma {:induction false} InvReaches(m: Heap, ops: seq<Op>, m': Heap)
    requires Inv(m) && Reaches(m, ops, m')
    ensures Inv(m')
    decreases |ops|
  {
    if ops != [] {
      DoKeeps(m, ops[0]);
      InvReaches(Do(m, ops[0]), ops[1..], m');
    }
  }

  /** Buffer ownership, for every run from an empty heap: each counter is the number of references out over
      all handles that share it; a handle with a reference shows an array that is in no pool; each wrapped
      array went back once or is still in use; recycled counters are zero and recycled handles blank. */
  lemma Ownership(ops: seq<Op>, m: Heap)
    requires Reaches(EmptyHeap, ops, m)
    ensures Inv(m)
    ensures forall c :: 0 <= c < |m.counters| ==> m.counters[c] == |m.held[c]|
    ensures forall h: HandleId :: Live(m, h) ==> m.handles[h].origin !in m.pooled
    ensures forall h: HandleId :: Live(m, h) ==> m.handles[h].refs !in m.freeCounters && h !in m.freeHandles
    ensures forall k :: k in m.pooled ==> m.pooled[k] == 1 && m.wrapped[k] == m.returned[k]
    ensures forall k :: 0 <= k < |m.wrapped| ==> m.returned[k] <= m.wrapped[k] <= m.returned[k] + 1
    ensures forall c :: c in m.freeCounters ==> m.counters[c] == 0
    ensures forall h :: h in m.freeHandles ==> m.handles[h] == Blank
  {
    InvReaches(EmptyHeap, ops, m);
    forall h: HandleId | Live(m, h)
      ensures m.handles[h].origin !in m.pooled && m.handles[h].refs !in m.freeCounters && h !in m.freeHandles
    {
      LiveFacts(m, h);
    }
  }

  // ---- bytes

  /** The handle an operation works on, if any. */
  function Target(op: Op): Option<HandleId> {
    match op
    case Ref(h) => Some(h)
    case Free(h) => Some(h)
    case Split(h, _, _) => Some(h)
    case Read(h, _) => Some(h)
    case _ => None
  }

  /** A handle whose struct, backing and references are as before. */
  predicate Untouched(m: Heap, m': Heap, g: HandleId)
    requires Live(m, g)
  {
    var w := m.handles[g];
    && g < |m'.handles| && m'.handles[g] == w
    && w.refs < |m'.held| && g in m'.held[w.refs]
    && w.origin < |m.stores| && w.origin < |m'.stores| && m'.stores[w.origin] == m.stores[w.origin]
  }

  lemma SameView(m: Heap, m': Heap, g: HandleId)
    requires Inv(m) && Inv(m') && Live(m, g) && Untouched(m, m', g)
    ensures Live(m', g) && Data(m', g) == Data(m, g) && Owed(m', g) == m'.held[m.handles[g].refs][g]
  {
  }

  lemma GetUntouched(m: Heap, k: BackingId, contents: bytes, g: HandleId)
    requires Inv(m) && Allowed(m, Get(k, contents)) && Live(m, g)
    ensures Untouched(m, Got(m, k, contents), g)
  {
    LiveFacts(m, g);
  }

  lemma WrapUntouched(m: Heap, k: BackingId, h: HandleId, c: CounterId, g: HandleId)
    requires Inv(m) && Allowed(m, NewBuffer(k, h, c)) && Live(m, g)
    ensures Untouched(m, Wrapped(m, k, h, c), g)
    ensures Wrapped(m, k, h, c).held[m.handles[g].refs] == m.held[m.handles[g].refs]
  {
    LiveFacts(m, g);
    TakenIsIdle(m, h, m.handles[g].refs);
  }

  lemma FreeUntouched(m: Heap, h: HandleId, g: HandleId)
    requires Inv(m) && Live(m, h) && Live(m, g) && (g != h || Owed(m, g) > 1)
    requires |m.counters| == |m.held| && m.handles[h].origin < |m.returned| == |m.owner|
    ensures Untouched(m, Freed(m, h), g)
    ensures Freed(m, h).held[m.handles[g].refs][g] == Owed(m, g) - (if g == h then 1 else 0)
  {
    LiveFacts(m, g);
    LiveFacts(m, h);
    var c := m.handles[g].refs;
    if c == m.handles[h].refs {
      AtLeast(m.held[c], g);
      if g != h { AtLeastTwo(m.held[c], g, h); }
    }
  }

  lemma SplitUntouched(m: Heap, h: HandleId, n: nat, right: HandleId, g: HandleId)
    requires Inv(m) && Live(m, h) && Live(m, g) && g != h
    requires CanTakeHandle(m, right) && right <= |m.handles| && right != h
    requires m.handles[h].lo + n <= m.handles[h].hi && |m.counters| == |m.held|
    ensures Untouched(m, SplitAt(m, h, n, right), g)
    ensures SplitAt(m, h, n, right).held[m.handles[g].refs][g] == Owed(m, g)
  {
    LiveFacts(m, g);
    LiveFacts(m, h);
    TakenIsIdle(m, right, m.handles[g].refs);
  }

  /** References through g after an operation that is not its last Free. */
  function OwedAfter(m: Heap, op: Op, g: HandleId): int {
    if op == Ref(g) then Owed(m, g) + 1 else if op == Free(g) then Owed(m, g) - 1 else Owed(m, g)
  }

  ghost predicate KeepsView(m: Heap, op: Op, g: HandleId)
    requires Inv(m) && Allowed(m, op) && Live(m, g)
  {
    Untouched(m, Do(m, op), g) && Do(m, op).held[m.handles[g].refs][g] == OwedAfter(m, op, g)
  }

  predicate OnBacking(op: Op) { op.Get? || op.Fill? || op.PutBack? || op.NewBuffer? }

  lemma BackingKeepsView(m: Heap, op: Op, g: HandleId)
    requires Inv(m) && Allowed(m, op) && Live(m, g) && OnBacking(op)
    ensures KeepsView(m, op, g)
  {
    match op
    case Get(k, contents) => GetKeepsView(m, k, contents, g);
    case NewBuffer(k, h, c) => WrapUntouched(m, k, h, c, g);
    case _ => LiveFacts(m, g);
  }

  lemma GetKeepsView(m: Heap, k: BackingId, contents: bytes, g: HandleId)
    requires Inv(m) && Allowed(m, Get(k, contents)) && Live(m, g)
    ensures KeepsView(m, Get(k, contents), g)
  {
    LiveFacts(m, g);
    GetUntouched(m, k, contents, g);
  }

  lemma CountKeepsView(m: Heap, op: Op, g: HandleId)
    requires Inv(m) && Allowed(m, op) && Live(m, g) && (op.Ref? || (op.Free? && (op.h != g || Owed(m, g) > 1)))
    ensures KeepsView(m, op, g)
  {
    LiveFacts(m, g);
    LiveFacts(m, op.h);
    if op.Free? { FreeUntouched(m, op.h, g); }
  }

  lemma SplitKeepsView(m: Heap, op: Op, g: HandleId)
    requires Inv(m) && Allowed(m, op) && Live(m, g) && op.Split? && op.h != g
    ensures KeepsView(m, op, g)
  {
    SplitKeeps(m, op.h, op.n, op.right);
    SplitUntouched(m, op.h, op.n, op.right, g);
  }

  lemma ReadKeepsView(m: Heap, op: Op, g: HandleId)
    requires Inv(m) && Allowed(m, op) && Live(m, g) && op.Read? && op.h != g
    ensures KeepsView(m, op, g)
  {
    LiveFacts(m, op.h);
    if op.want < m.handles[op.h].hi - m.handles[op.h].lo {
      ReadSomeKeepsView(m, op.h, op.want, g);
    } else {
      ReadAllKeepsView(m, op.h, op.want, g);
    }
  }

  lemma ReadAllKeepsView(m: Heap, h: HandleId, want: nat, g: HandleId)
    requires Inv(m) && Live(m, h) && Allowed(m, Read(h, want)) && Live(m, g) && h != g
    requires want >= m.handles[h].hi - m.handles[h].lo
    ensures KeepsView(m, Read(h, want), g)
  {
    LiveFacts(m, h);
    FreeUntouched(m, h, g);
  }

  lemma ReadSomeKeepsView(m: Heap, h: HandleId, want: nat, g: HandleId)
    requires Inv(m) && Live(m, h) && Allowed(m, Read(h, want)) && Live(m, g) && h != g
    requires want < m.handles[h].hi - m.handles[h].lo
    ensures KeepsView(m, Read(h, want), g)
  {
    LiveFacts(m, g);
  }

  /** No operation through one handle changes what another handle's holder sees, or how many references go
      through it; Ref and Free leave the bytes of their own handle alone as well, while any are out. */
  lemma OthersUndisturbed(m: Heap, op: Op, g: HandleId)
    requires Inv(m) && Allowed(m, op) && Live(m, g)
    requires Target(op) != Some(g) || op.Ref? || (op.Free? && Owed(m, g) > 1)
    ensures Inv(Do(m, op)) && Live(Do(m, op), g) && Data(Do(m, op), g) == Data(m, g)
    ensures Owed(Do(m, op), g) == OwedAfter(m, op, g)
  {
    DoKeeps(m, op);
    if OnBacking(op) { BackingKeepsView(m, op, g); }
    else if op.Ref? || op.Free? { CountKeepsView(m, op, g); }
    else if op.Split? { SplitKeepsView(m, op, g); }
    else { ReadKeepsView(m, op, g); }
    SameView(m, Do(m, op), g);
  }

  lemma AtLeastTwo(s: multiset<HandleId>, g: HandleId, h: HandleId)
    requires g in s && h in s && g != h
    ensures |s| >= 2
  {
    assert multiset{g, h} <= s;
    assert s == multiset{g, h} + (s - multiset{g, h});
  }

  lemma AtLeast(s: multiset<HandleId>, h: HandleId)
    ensures |s| >= s[h]
  {
    assert s == s[h := 0] + multiset{}[h := s[h]];
  }

  lemma Halves(s: bytes, lo: nat, n: nat, hi: nat)
    requires lo + n <= hi <= |s|
    ensures s[lo..hi][..n] == s[lo..lo + n] && s[lo..hi][n..] == s[lo + n..hi]
  {
  }

  /** split cuts the bytes in two, without losing or copying any. */
  lemma SplitBytes(m: Heap, h: HandleId, n: nat, right: HandleId)
    requires Inv(m) && Allowed(m, Split(h, n, right))
    ensures var m' := Do(m, Split(h, n, right));
            && Inv(m') && Live(m', h) && Live(m', right) && Owed(m', right) == 1 && Owed(m', h) == Owed(m, h)
            && Data(m', h) == Data(m, h)[..n] && Data(m', right) == Data(m, h)[n..]
  {
    DoKeeps(m, Split(h, n, right));
    LiveFacts(m, h);
    TakenIsIdle(m, right, m.handles[h].refs);
    var m' := Do(m, Split(h, n, right));
    var w := m.handles[h];
    assert m'.held[w.refs] == m.held[w.refs] + multiset{right};
    Halves(m.stores[w.origin], w.lo, n, w.hi);
    assert m'.handles[h] == w.(hi := w.lo + n) && m'.handles[right] == Window(w.origin, w.lo + n, w.hi, w.refs);
  }

  /** read delivers the next bytes; it keeps the handle on the rest, and frees the reference when none are left. */
  lemma ReadBytes(m: Heap, h: HandleId, want: nat)
    requires Inv(m) && Live(m, h)
    ensures Inv(Do(m, Read(h, want)))
    ensures want < |Data(m, h)| ==>
      && Live(Do(m, Read(h, want)), h) && Owed(Do(m, Read(h, want)), h) == Owed(m, h)
      && Data(m, h) == Data(m, h)[..want] + Data(Do(m, Read(h, want)), h)
    ensures want >= |Data(m, h)| ==> Do(m, Read(h, want)) == Do(m, Free(h))
  {
    DoKeeps(m, Read(h, want));
    if want < |Data(m, h)| { ReadSome(m, h, want); } else { LiveFacts(m, h); }
  }

  lemma ReadSome(m: Heap, h: HandleId, want: nat)
    requires Inv(m) && Live(m, h) && want < |Data(m, h)| && Inv(Do(m, Read(h, want)))
    ensures Live(Do(m, Read(h, want)), h) && Owed(Do(m, Read(h, want)), h) == Owed(m, h)
    ensures Data(m, h) == Data(m, h)[..want] + Data(Do(m, Read(h, want)), h)
  {
    LiveFacts(m, h);
    var w, m' := m.handles[h], Do(m, Read(h, want));
    assert m'.handles[h] == w.(lo := w.lo + want) && m'.stores == m.stores;
    Halves(m.stores[w.origin], w.lo, want, w.hi);
  }
}
