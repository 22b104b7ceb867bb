/** Flattening buffer slices and reading a stream into them (mem/buffer_slice.go). */
module ReadAll {
  import opened Bytes
  import opened Results
  import opened Buffers
  import opened BufferSafety
  import opened SliceReader

  const POOLING_THRESHOLD := 1024
  const READ_ALL_BUF_SIZE := 32 * 1024

  // ---- operations that leave every reference and its bytes alone

  ghost predicate Steady(m: GoodHeap, m': GoodHeap) {
    forall g: HandleId :: Owed(m', g) == Owed(m, g) && (Live(m, g) ==> Live(m', g) && Data(m', g) == Data(m, g))
  }

  lemma SteadyOp(m: GoodHeap, op: Op)
    requires Allowed(m, op) && (op.Get? || op.Fill? || op.PutBack?)
    ensures Inv(Do(m, op)) && Steady(m, Do(m, op))
  {
    DoKeeps(m, op);
    forall g: HandleId
      ensures Owed(Do(m, op), g) == Owed(m, g)
      ensures Live(m, g) ==> Live(Do(m, op), g) && Data(Do(m, op), g) == Data(m, g)
    {
      if Live(m, g) { OthersUndisturbed(m, op, g); }
    }
  }

  lemma {:induction false} SteadyFlat(m: GoodHeap, m': GoodHeap, s: BufferSlice)
    requires Steady(m, m') && AllLive(m, s)
    ensures AllLive(m', s) && Flat(m', s) == Flat(m, s)
  {
    if s != [] {
      assert s[0] in s;
      assert forall b :: b in s[1..] ==> b in s;
      SteadyFlat(m, m', s[1..]);
    }
  }

  lemma WrapIdle(m: GoodHeap, k: BackingId, h: HandleId, c: CounterId, g: HandleId)
    requires Allowed(m, NewBuffer(k, h, c)) && !Live(m, g) && g != h
    ensures !Live(Wrapped(m, k, h, c), g)
  {
    WrapHandle(m, k, h, c);
    WrapCounter(m, k, h, c);
  }

  lemma NewBufferSelf(m: GoodHeap, k: BackingId, h: HandleId, c: CounterId)
    requires Allowed(m, NewBuffer(k, h, c))
    ensures var m' := Do(m, NewBuffer(k, h, c));
            Inv(m') && Live(m', h) && Owed(m, h) == 0 && Owed(m', h) == 1 && Data(m', h) == m.stores[k]
  {
    var m' := Do(m, NewBuffer(k, h, c));
    assert Inv(m') by { DoKeeps(m, NewBuffer(k, h, c)); }
    assert m'.handles[h] == Window(k, 0, |m.stores[k]|, c);
    assert Live(m', h) && Owed(m, h) == 0 && Owed(m', h) == 1 by { WrapNew(m, k, h, c); }
  }

  lemma NewBufferOther(m: GoodHeap, k: BackingId, h: HandleId, c: CounterId, g: HandleId)
    requires Allowed(m, NewBuffer(k, h, c)) && g != h
    ensures var m' := Do(m, NewBuffer(k, h, c));
            Inv(m') && Owed(m', g) == Owed(m, g) && (Live(m, g) ==> Live(m', g) && Data(m', g) == Data(m, g))
  {
    DoKeeps(m, NewBuffer(k, h, c));
    if Live(m, g) { OthersUndisturbed(m, NewBuffer(k, h, c), g); } else { WrapIdle(m, k, h, c, g); }
  }

  /** m' has one more counted buffer than m: its handle had no reference and now has one. */
  ghost predicate OneNew(m: GoodHeap, m': GoodHeap, h: HandleId, d: bytes) {
    && Live(m', h) && Owed(m, h) == 0 && Owed(m', h) == 1 && Data(m', h) == d
    && forall g: HandleId :: g != h ==>
         Owed(m', g) == Owed(m, g) && (Live(m, g) ==> Live(m', g) && Data(m', g) == Data(m, g))
  }

  lemma NewBufferEffect(m: GoodHeap, k: BackingId, h: HandleId, c: CounterId)
    requires Allowed(m, NewBuffer(k, h, c))
    ensures var m' := Do(m, NewBuffer(k, h, c)); Inv(m') && OneNew(m, m', h, m.stores[k])
  {
    NewBufferSelf(m, k, h, c);
    forall g: HandleId | g != h
      ensures var m' := Do(m, NewBuffer(k, h, c));
              Owed(m', g) == Owed(m, g) && (Live(m, g) ==> Live(m', g) && Data(m', g) == Data(m, g))
    {
      NewBufferOther(m, k, h, c, g);
    }
  }

  /** A slice and a new buffer at its end. */
  lemma NewAtEnd(m: GoodHeap, m': GoodHeap, s: BufferSlice, h: HandleId, d: bytes)
    requires OneNew(m, m', h, d) && Backed(m, s) && AllLive(m, s)
    ensures Backed(m', s + [Counted(h)]) && AllLive(m', s + [Counted(h)])
    ensures Flat(m', s + [Counted(h)]) == Flat(m, s) + d
    ensures forall g: HandleId :: Surplus(m', s + [Counted(h)], g) == Surplus(m, s, g)
  {
    var s' := s + [Counted(h)];
    assert multiset(s') == multiset(s) + multiset{Counted(h)};
    forall g: HandleId ensures Surplus(m', s', g) == Surplus(m, s, g) && multiset(s')[Counted(g)] <= Owed(m', g) {}
    OldPart(m, m', s, h, d);
    FlatAppend(m', s, Counted(h));
  }

  lemma {:induction false} OldPart(m: GoodHeap, m': GoodHeap, s: BufferSlice, h: HandleId, d: bytes)
    requires OneNew(m, m', h, d) && AllLive(m, s)
    ensures AllLive(m', s) && Flat(m', s) == Flat(m, s)
  {
    if s != [] {
      assert s[0] in s;
      assert forall b :: b in s[1..] ==> b in s;
      OldPart(m, m', s[1..], h, d);
    }
  }

  // ---- the pool as a caller sees it

  /** pool.Get: a recycled or a new backing, at least as large as asked for. */
  method GetBacking(mem: Memory, size: nat) returns (k: BackingId, cap: nat)
    modifies mem
    ensures cap >= size && !old(Lent(mem.heap, k)) && Steady(old(mem.heap), mem.heap)
    ensures forall j: BackingId :: Lent(mem.heap, j) <==> old(Lent(mem.heap, j)) || j == k
  {
    cap :| cap >= size;
    k := |mem.heap.stores|;
    if * {
      if mem.heap.pooled != multiset{} { k :| k in mem.heap.pooled; }
    }
    SteadyOp(mem.heap, Get(k, []));
    mem.heap := Got(mem.heap, k, []);
  }

  /** Writing to, and cutting to length, a backing one has. */
  method FillBacking(mem: Memory, k: BackingId, d: bytes)
    requires Lent(mem.heap, k)
    modifies mem
    ensures Steady(old(mem.heap), mem.heap) && k < |mem.heap.stores| && mem.heap.stores[k] == d
    ensures forall j: BackingId :: Lent(mem.heap, j) <==> old(Lent(mem.heap, j))
  {
    SteadyOp(mem.heap, Fill(k, d));
    mem.heap := Filled(mem.heap, k, d);
  }

  method PutBacking(mem: Memory, k: BackingId)
    requires Lent(mem.heap, k)
    modifies mem
    ensures Steady(old(mem.heap), mem.heap)
    ensures forall j: BackingId :: Lent(mem.heap, j) <==> old(Lent(mem.heap, j)) && j != k
  {
    SteadyOp(mem.heap, PutBack(k));
    mem.heap := PutInPool(mem.heap, k);
  }

  lemma WrapLent(m: GoodHeap, k: BackingId, h: HandleId, c: CounterId)
    requires Allowed(m, NewBuffer(k, h, c))
    ensures forall j: BackingId :: Lent(Do(m, NewBuffer(k, h, c)), j) <==> Lent(m, j) && j != k
  {
  }

  /** NewBuffer */
  method Wrap(mem: Memory, k: BackingId) returns (h: HandleId)
    requires Lent(mem.heap, k)
    modifies mem
    ensures k < |old(mem.heap).stores| && OneNew(old(mem.heap), mem.heap, h, old(mem.heap).stores[k])
    ensures forall j: BackingId :: Lent(mem.heap, j) <==> old(Lent(mem.heap, j)) && j != k
  {
    h := |mem.heap.handles|;
    var c := |mem.heap.counters|;
    if * {
      if mem.heap.freeHandles != multiset{} { h :| h in mem.heap.freeHandles; }
    }
    if * {
      if mem.heap.freeCounters != multiset{} { c :| c in mem.heap.freeCounters; }
    }
    NewBufferEffect(mem.heap, k, h, c);
    WrapLent(mem.heap, k, h, c);
    mem.heap := Wrapped(mem.heap, k, h, c);
  }

  // ---- flattening

  /** CopyTo: as much of the flat string as fits. */
  method CopyTo(mem: Memory, s: BufferSlice, dst: array<byte>) returns (off: nat)
    requires AllLive(mem.heap, s)
    modifies dst
    ensures var flat := Flat(mem.heap, s);
            && off == (if |flat| < dst.Length then |flat| else dst.Length)
            && dst[..] == flat[..off] + old(dst[off..])
  {
    off := 0;
    ghost var flat: bytes := [];
    for i := 0 to |s|
      invariant AllLive(mem.heap, s[..i]) && flat == Flat(mem.heap, s[..i])
      invariant off == (if |flat| < dst.Length then |flat| else dst.Length)
      invariant dst[..] == flat[..off] + old(dst[..])[off..]
    {
      FlatTake(mem.heap, s, i);
      var d := mem.ReadOnlyData(s[i]);
      off := CopyNext(dst, off, d, flat, old(dst[..]));
      flat := flat + d;
    }
    assert s[..|s|] == s;
  }

  /** One turn of CopyTo's loop. */
  method CopyNext(dst: array<byte>, off: nat, d: bytes, ghost flat: bytes, ghost was: bytes) returns (next: nat)
    requires |was| == dst.Length && off == (if |flat| < dst.Length then |flat| else dst.Length)
    requires dst[..] == flat[..off] + was[off..]
    modifies dst
    ensures next == (if |flat + d| < dst.Length then |flat + d| else dst.Length)
    ensures dst[..] == (flat + d)[..next] + was[next..]
  {
    var cp := FillFrom(dst, off, d, 0);
    CopyOn(flat, d, was, off, cp);
    next := off + cp;
  }

  lemma CopyOn(flat: bytes, d: bytes, was: bytes, off: nat, cp: nat)
    requires off <= |flat| && off + cp <= |was| && cp <= |d| && (off == |flat| || cp == 0)
    ensures (flat[..off] + was[off..])[..off] + d[0..cp] + (flat[..off] + was[off..])[off + cp..]
            == (flat + d)[..off + cp] + was[off + cp..]
  {
    var all := flat[..off] + was[off..];
    assert all[..off] == flat[..off] && all[off + cp..] == was[off + cp..];
    assert (flat + d)[..off + cp] == flat[..off] + d[0..cp];
  }

  /** Materialize */
  method Materialize(mem: Memory, s: BufferSlice) returns (out: bytes)
    requires AllLive(mem.heap, s)
    ensures out == Flat(mem.heap, s)
  {
    var l := SliceLen(mem, s);
    if l == 0 { return []; }
    var dst := new byte[l];
    var n := CopyTo(mem, s, dst);
    out := dst[..];
  }

  /** MaterializeToBuffer: one buffer with the bytes of all, sharing instead of copying when there is one. */
  method MaterializeToBuffer(mem: Memory, s: BufferSlice) returns (b: Buf)
    requires AllLive(mem.heap, s)
    modifies mem
    ensures b.Counted? ==> Live(mem.heap, b.h)
    ensures BufData(mem.heap, b) == old(Flat(mem.heap, s))
    ensures forall g: HandleId :: Owed(mem.heap, g) == old(Owed(mem.heap, g)) + (if b == Counted(g) then 1 else 0)
  {
    ghost var m := mem.heap;
    if |s| == 1 {
      b := s[0];
      assert b in s;
      OneFlat(m, b);
      assert s == [b];
      mem.Ref(b);
      if b.Counted? { RefOne(m, b.h); }
      return;
    }
    var flat := Materialize(mem, s);
    if |flat| == 0 { return Empty; }
    b := Store(mem, flat);
  }

  lemma OneFlat(m: GoodHeap, b: Buf)
    requires b.Counted? ==> Live(m, b.h)
    ensures AllLive(m, [b]) && Flat(m, [b]) == BufData(m, b)
  {
    assert [b][1..] == [];
  }

  lemma RefOne(m: GoodHeap, h: HandleId)
    requires Live(m, h)
    ensures var m' := Do(m, Buffers.Ref(h));
            && Inv(m') && Live(m', h) && Data(m', h) == Data(m, h)
            && forall g: HandleId :: Owed(m', g) == Owed(m, g) + if g == h then 1 else 0
  {
    OthersUndisturbed(m, Buffers.Ref(h), h);
    forall g: HandleId ensures Owed(Do(m, Buffers.Ref(h)), g) == Owed(m, g) + if g == h then 1 else 0 {
      OwedChange(m, Buffers.Ref(h), g);
    }
  }

  lemma TwoSteps(m: GoodHeap, m1: GoodHeap, m2: GoodHeap, m3: GoodHeap, h: HandleId, d: bytes)
    requires Steady(m, m1) && Steady(m1, m2) && OneNew(m2, m3, h, d)
    ensures OneNew(m, m3, h, d)
  {
    forall g: HandleId | g != h
      ensures Owed(m3, g) == Owed(m, g) && (Live(m, g) ==> Live(m3, g) && Data(m3, g) == Data(m, g))
    {
      assert Owed(m1, g) == Owed(m, g) && Owed(m2, g) == Owed(m1, g);
    }
    assert Owed(m1, h) == Owed(m, h) && Owed(m2, h) == Owed(m1, h);
  }

  /** Bytes copied into a backing from the pool and wrapped. */
  method Store(mem: Memory, d: bytes) returns (b: Buf)
    modifies mem
    ensures b.Counted? && OneNew(old(mem.heap), mem.heap, b.h, d)
    ensures forall j: BackingId :: Lent(mem.heap, j) <==> old(Lent(mem.heap, j))
  {
    ghost var m := mem.heap;
    var k, cap := GetBacking(mem, |d|);
    ghost var m1 := mem.heap;
    FillBacking(mem, k, d);
    ghost var m2 := mem.heap;
    var h := Wrap(mem, k);
    TwoSteps(m, m1, m2, mem.heap, h, d);
    b := Counted(h);
  }

  /** Copy, and the Write of a writer: a plain slice below the threshold, a pooled buffer above it. */
  method Write(mem: Memory, buffers: BufferSlice, p: bytes) returns (result: BufferSlice)
    requires Backed(mem.heap, buffers) && AllLive(mem.heap, buffers)
    modifies mem
    ensures Backed(mem.heap, result) && AllLive(mem.heap, result)
    ensures Flat(mem.heap, result) == old(Flat(mem.heap, buffers)) + p
    ensures forall h: HandleId :: Surplus(mem.heap, result, h) == old(Surplus(mem.heap, buffers, h))
    ensures forall j: BackingId :: Lent(mem.heap, j) <==> old(Lent(mem.heap, j))
  {
    ghost var m := mem.heap;
    if |p| <= POOLING_THRESHOLD {
      result := buffers + [Plain(p)];
      FlatAppend(m, buffers, Plain(p));
      assert multiset(result) == multiset(buffers) + multiset{Plain(p)};
      return;
    }
    var b := Store(mem, p);
    NewAtEnd(m, mem.heap, buffers, b.h, p);
    result := buffers + [b];
  }

  // ---- reading a stream

  datatype ReadError = EOF | Failure(code: int)

  /** What a reader will return, read by read: some bytes, none perhaps, and an error if that was the last. */
  datatype Chunk = Chunk(data: bytes, err: Option<ReadError>)

  /** The bytes a reader delivers and how it ends. */
  function Delivered(script: seq<Chunk>): (bytes, ReadError) {
    if script == [] then ([], EOF)
    else if script[0].err.Some? then (script[0].data, script[0].err.value)
    else var (d, e) := Delivered(script[1..]); (script[0].data + d, e)
  }

  function Weight(script: seq<Chunk>): nat {
    if script == [] then 0 else |script[0].data| + 1 + Weight(script[1..])
  }

  class Source {
    var script: seq<Chunk>

    constructor (script: seq<Chunk>)
      ensures this.script == script
    {
      this.script := script;
    }

    /** Read into a slice with room for that many bytes. */
    method Read(room: nat) returns (d: bytes, err: Option<ReadError>)
      requires room > 0
      modifies this
      ensures |d| <= room
      ensures err.None? ==> Weight(script) < Weight(old(script))
                            && Delivered(old(script)) == (d + Delivered(script).0, Delivered(script).1)
      ensures err.Some? ==> Delivered(old(script)) == (d, err.value)
    {
      if script == [] { return [], Some(EOF); }
      var c := script[0];
      if |c.data| > room {
        d, err := c.data[..room], None;
        assert c.data[..room] + c.data[room..] == c.data;
        CutChunk(script, room);
        script := [Chunk(c.data[room..], c.err)] + script[1..];
      } else {
        d, err := c.data, c.err;
        script := script[1..];
      }
    }
  }

  lemma CutChunk(script: seq<Chunk>, room: nat)
    requires script != [] && 0 < room < |script[0].data|
    ensures var cut := [Chunk(script[0].data[room..], script[0].err)] + script[1..];
            && Weight(cut) < Weight(script)
            && Delivered(script) == (script[0].data[..room] + Delivered(cut).0, Delivered(cut).1)
  {
    var d := script[0].data;
    var cut := [Chunk(d[room..], script[0].err)] + script[1..];
    assert cut[1..] == script[1..];
    assert d[..room] + d[room..] == d;
    if script[0].err.None? {
      var rest := Delivered(script[1..]).0;
      assert d + rest == d[..room] + (d[room..] + rest);
    }
  }

  /** ReadAll's inner loop: one buffer, until it is full or the reader ends. */
  method FillOne(r: Source, cap: nat) returns (d: bytes, err: Option<ReadError>)
    requires cap > 0
    modifies r
    ensures |d| <= cap
    ensures err.None? ==> |d| == cap && Weight(r.script) < Weight(old(r.script))
                          && Delivered(old(r.script)) == (d + Delivered(r.script).0, Delivered(r.script).1)
    ensures err.Some? ==> Delivered(old(r.script)) == (d, err.value)
  {
    d, err := [], None;
    assert [] + Delivered(r.script).0 == Delivered(r.script).0;
    while |d| < cap
      invariant |d| <= cap && Weight(r.script) <= Weight(old(r.script))
      invariant d != [] ==> Weight(r.script) < Weight(old(r.script))
      invariant Delivered(old(r.script)) == (d + Delivered(r.script).0, Delivered(r.script).1)
      decreases Weight(r.script)
    {
      ghost var before := r.script;
      var n, e := r.Read(cap - |d|);
      Assoc(d, n, Delivered(r.script).0);
      d := d + n;
      if e.Some? { return d, e; }
    }
  }

  /** ReadAll of a plain reader: the buffers hold the whole stream, an end of file is no error, and every
      backing taken from the pool is in the result or back. */
  method ReadAll(mem: Memory, r: Source) returns (result: BufferSlice, err: Option<ReadError>)
    modifies mem, r
    ensures Backed(mem.heap, result) && AllLive(mem.heap, result)
    ensures Flat(mem.heap, result) == Delivered(old(r.script)).0
    ensures err == if Delivered(old(r.script)).1 == EOF then None else Some(Delivered(old(r.script)).1)
    ensures forall h: HandleId :: Surplus(mem.heap, result, h) == old(Owed(mem.heap, h))
    ensures forall j: BackingId :: Lent(mem.heap, j) <==> old(Lent(mem.heap, j))
  {
    result, err := [], None;
    ghost var all := Delivered(r.script);
    assert all.0 == [] + all.0;
    while true
      invariant Backed(mem.heap, result) && AllLive(mem.heap, result)
      invariant all == (Flat(mem.heap, result) + Delivered(r.script).0, Delivered(r.script).1)
      invariant forall h: HandleId :: Surplus(mem.heap, result, h) == old(Owed(mem.heap, h))
      invariant forall j: BackingId :: Lent(mem.heap, j) <==> old(Lent(mem.heap, j))
      decreases Weight(r.script)
    {
      var more, e := ReadOne(mem, r, result);
      result := more;
      if e.Some? {
        return result, if e == Some(EOF) then None else e;
      }
    }
  }

  /** One buffer of ReadAll: got, filled, and appended or put back if nothing came. */
  method ReadOne(mem: Memory, r: Source, buffers: BufferSlice) returns (result: BufferSlice, err: Option<ReadError>)
    requires Backed(mem.heap, buffers) && AllLive(mem.heap, buffers)
    modifies mem, r
    ensures Backed(mem.heap, result) && AllLive(mem.heap, result)
    ensures var flat := old(Flat(mem.heap, buffers));
            var d := Delivered(old(r.script));
            && (err.Some? ==> (flat + d.0, d.1) == (Flat(mem.heap, result), err.value))
            && (err.None? ==>
                  && (flat + d.0, d.1) == (Flat(mem.heap, result) + Delivered(r.script).0, Delivered(r.script).1)
                  && Weight(r.script) < Weight(old(r.script)))
    ensures forall h: HandleId :: Surplus(mem.heap, result, h) == old(Surplus(mem.heap, buffers, h))
    ensures forall j: BackingId :: Lent(mem.heap, j) <==> old(Lent(mem.heap, j))
  {
    ghost var m := mem.heap;
    var k, cap := GetBacking(mem, READ_ALL_BUF_SIZE);
    ghost var m1 := mem.heap;
    var d;
    d, err := FillOne(r, cap);
    Assoc(Flat(m, buffers), d, Delivered(r.script).0);
    if |d| == 0 {
      PutBacking(mem, k);
      SteadyTwice(m, m1, mem.heap, buffers);
      assert Flat(m, buffers) + d == Flat(m, buffers);
      return buffers, err;
    }
    FillBacking(mem, k, d);
    ghost var m2 := mem.heap;
    var h := Wrap(mem, k);
    TwoSteps(m, m1, m2, mem.heap, h, d);
    NewAtEnd(m, mem.heap, buffers, h, d);
    result := buffers + [Counted(h)];
  }

  lemma SteadyTwice(m: GoodHeap, m1: GoodHeap, m2: GoodHeap, s: BufferSlice)
    requires Steady(m, m1) && Steady(m1, m2) && Backed(m, s) && AllLive(m, s)
    ensures Backed(m2, s) && AllLive(m2, s) && Flat(m2, s) == Flat(m, s)
    ensures forall h: HandleId :: Surplus(m2, s, h) == Surplus(m, s, h)
  {
    SteadyFlat(m, m1, s);
    SteadyFlat(m1, m2, s);
    forall h: HandleId ensures Owed(m2, h) == Owed(m, h) {
      assert Owed(m1, h) == Owed(m, h);
    }
  }

  function Concat(chunks: seq<bytes>): bytes {
    if chunks == [] then [] else Concat(chunks[..|chunks| - 1]) + chunks[|chunks| - 1]
  }

  /** ReadAll of an io.WriterTo: it writes its chunks, however it cuts them, and its error is passed on. */
  method ReadAllWriterTo(mem: Memory, chunks: seq<bytes>, failure: Option<ReadError>)
    returns (result: BufferSlice, err: Option<ReadError>)
    modifies mem
    ensures Backed(mem.heap, result) && AllLive(mem.heap, result)
    ensures Flat(mem.heap, result) == Concat(chunks) && err == failure
    ensures forall h: HandleId :: Surplus(mem.heap, result, h) == old(Owed(mem.heap, h))
    ensures forall j: BackingId :: Lent(mem.heap, j) <==> old(Lent(mem.heap, j))
  {
    result, err := [], failure;
    for i := 0 to |chunks|
      invariant Backed(mem.heap, result) && AllLive(mem.heap, result)
      invariant Flat(mem.heap, result) == Concat(chunks[..i])
      invariant forall h: HandleId :: Surplus(mem.heap, result, h) == old(Owed(mem.heap, h))
      invariant forall j: BackingId :: Lent(mem.heap, j) <==> old(Lent(mem.heap, j))
    {
      assert chunks[..i + 1][..i] == chunks[..i];
      result := Write(mem, result, chunks[i]);
    }
    assert chunks[..|chunks|] == chunks;
  }
}
