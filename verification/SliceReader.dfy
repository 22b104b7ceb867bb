/** Buffer slices and their reader (mem/buffer_slice.go): a cursor over many buffers that reads as one flat
    byte string and frees each buffer as it leaves it. */
module SliceReader {
  import opened Bytes
  import opened Results
  import opened Buffers
  import opened BufferSafety

  /** The implementations of Buffer: a counted handle, a SliceBuffer, the empty buffer. */
  datatype Buf = Counted(h: HandleId) | Plain(data: bytes) | Empty

  type BufferSlice = seq<Buf>

  /** The heap has a reference for each occurrence of a counted buffer in the slice. */
  ghost predicate Backed(m: Heap, s: BufferSlice) {
    forall h: HandleId :: multiset(s)[Counted(h)] <= Owed(m, h)
  }

  ghost predicate AllLive(m: Heap, s: BufferSlice) {
    forall h: HandleId :: Counted(h) in s ==> Live(m, h)
  }

  ghost function BufData(m: Heap, b: Buf): bytes
    requires Inv(m) && (b.Counted? ==> Live(m, b.h))
  {
    match b
    case Counted(h) => Data(m, h)
    case Plain(data) => data
    case Empty => []
  }

  ghost function Flat(m: Heap, s: BufferSlice): bytes
    requires Inv(m) && AllLive(m, s)
  {
    if s == [] then [] else BufData(m, s[0]) + Flat(m, s[1..])
  }

  lemma BackedIsLive(m: Heap, s: BufferSlice)
    requires Backed(m, s)
    ensures AllLive(m, s)
  {
    forall h: HandleId | Counted(h) in s ensures Live(m, h) {
      assert multiset(s)[Counted(h)] > 0;
    }
  }

  lemma BackedTail(m: Heap, s: BufferSlice)
    requires Backed(m, s) && s != []
    ensures Backed(m, s[1..])
  {
    assert s == [s[0]] + s[1..];
  }

  // ---- taking and giving back references

  /** Ref and Free change the count of their own handle by one and of no other. */
  lemma OwedChange(m: Heap, op: Op, g: HandleId)
    requires Inv(m) && Allowed(m, op) && (op.Ref? || op.Free?)
    ensures Inv(Do(m, op)) && Owed(Do(m, op), g) == OwedAfter(m, op, g)
  {
    DoKeeps(m, op);
    if Live(m, g) && (op.Ref? || op.h != g || Owed(m, g) > 1) {
      OthersUndisturbed(m, op, g);
    } else if Live(m, g) {
      assert op == Buffers.Free(g);
      LastOfHandle(m, g);
    } else {
      assert op.h != g;
      StillIdle(m, op, g);
    }
  }

  lemma LastOfHandle(m: Heap, g: HandleId)
    requires Inv(m) && Live(m, g) && Owed(m, g) == 1
    ensures Inv(Do(m, Free(g))) && Owed(Do(m, Free(g)), g) == 0
  {
    DoKeeps(m, Free(g));
    LiveFacts(m, g);
  }

  lemma StillIdle(m: Heap, op: Op, g: HandleId)
    requires Inv(m) && Allowed(m, op) && (op.Ref? || op.Free?) && !Live(m, g)
    ensures !Live(Do(m, op), g)
  {
    LiveFacts(m, op.h);
  }

  /** A slice whose buffers keep a reference reads the same after a Ref or a Free. */
  lemma {:induction false} FlatKept(m: Heap, op: Op, s: BufferSlice)
    requires Inv(m) && Allowed(m, op) && (op.Ref? || op.Free?) && AllLive(m, s)
    requires op.Free? && Counted(op.h) in s ==> Owed(m, op.h) > 1
    ensures Inv(Do(m, op)) && AllLive(Do(m, op), s) && Flat(Do(m, op), s) == Flat(m, s)
  {
    DoKeeps(m, op);
    if s != [] {
      assert forall h: HandleId :: Counted(h) in s[1..] ==> Counted(h) in s;
      FlatKept(m, op, s[1..]);
      if s[0].Counted? { OthersUndisturbed(m, op, s[0].h); }
      assert forall h: HandleId :: Counted(h) in s ==> s[0] == Counted(h) || Counted(h) in s[1..];
    }
  }

  class Memory {
    var heap: GoodHeap

    constructor ()
      ensures heap == EmptyHeap
    {
      heap := EmptyHeap;
    }

    method Ref(b: Buf)
      requires b.Counted? ==> Live(heap, b.h)
      modifies this
      ensures heap == if b.Counted? then Do(old(heap), Buffers.Ref(b.h)) else old(heap)
    {
      if b.Counted? {
        DoKeeps(heap, Buffers.Ref(b.h));
        heap := Reffed(heap, b.h);
      }
    }

    method Free(b: Buf)
      requires b.Counted? ==> Live(heap, b.h)
      modifies this
      ensures heap == if b.Counted? then Do(old(heap), Buffers.Free(b.h)) else old(heap)
    {
      if b.Counted? {
        DoKeeps(heap, Buffers.Free(b.h));
        LiveFacts(heap, b.h);
        heap := Freed(heap, b.h);
      }
    }

    /** read of a counted buffer: as many of its bytes as fit, with the handle moved past them or freed. */
    method Read(h: HandleId, buf: array<byte>) returns (n: nat)
      requires Live(heap, h)
      modifies this, buf
      ensures heap == Do(old(heap), Buffers.Read(h, buf.Length))
      ensures n == if buf.Length < |old(Data(heap, h))| then buf.Length else |old(Data(heap, h))|
      ensures CopiedInto(buf[..], old(Data(heap, h)), old(buf[..]), n)
    {
      var d := ReadOnlyData(Counted(h));
      n := CopyFront(buf, d);
      DoKeeps(heap, Buffers.Read(h, buf.Length));
      LiveFacts(heap, h);
      heap := ReadFrom(heap, h, buf.Length);
    }

    /** ReadOnlyData */
    method ReadOnlyData(b: Buf) returns (d: bytes)
      requires b.Counted? ==> Live(heap, b.h)
      ensures d == BufData(heap, b)
    {
      match b
      case Counted(h) =>
        LiveFacts(heap, h);
        var w := heap.handles[h];
        d := heap.stores[w.origin][w.lo..w.hi];
      case Plain(data) => d := data;
      case Empty => d := [];
    }
  }

  /** References that are not among those of the slice. */
  ghost function Surplus(m: Heap, s: BufferSlice, h: HandleId): int {
    Owed(m, h) - multiset(s)[Counted(h)]
  }

  lemma FreeSurplus(m: Heap, s: BufferSlice)
    requires Inv(m) && AllLive(m, s) && s != [] && s[0].Counted?
    ensures forall h: HandleId :: Surplus(Do(m, Buffers.Free(s[0].h)), s[1..], h) == Surplus(m, s, h)
  {
    assert s == [s[0]] + s[1..];
    forall h: HandleId ensures Surplus(Do(m, Buffers.Free(s[0].h)), s[1..], h) == Surplus(m, s, h) {
      OwedChange(m, Buffers.Free(s[0].h), h);
    }
  }

  /** Freeing the first buffer of a slice and dropping it from the slice. */
  lemma FreeFirst(m: Heap, s: BufferSlice, m': Heap)
    requires Inv(m) && Backed(m, s) && AllLive(m, s) && s != []
    requires m' == if s[0].Counted? then Do(m, Buffers.Free(s[0].h)) else m
    ensures Inv(m') && Backed(m', s[1..]) && AllLive(m', s[1..])
    ensures AllLive(m, s[1..]) && Flat(m', s[1..]) == Flat(m, s[1..])
    ensures forall h: HandleId :: Surplus(m', s[1..], h) == Surplus(m, s, h)
  {
    assert s == [s[0]] + s[1..];
    if s[0].Counted? {
      var op := Buffers.Free(s[0].h);
      FreeSurplus(m, s);
      DoKeeps(m, op);
      assert Surplus(m', s[1..], s[0].h) == Surplus(m, s, s[0].h);
      if s[0] in s[1..] {
        assert multiset(s)[s[0]] >= 2;
      }
      assert forall h: HandleId :: Counted(h) in s[1..] ==> Counted(h) in s;
      FlatKept(m, op, s[1..]);
      forall h: HandleId ensures multiset(s[1..])[Counted(h)] <= Owed(m', h) {
        assert Surplus(m', s[1..], h) == Surplus(m, s, h);
      }
    } else {
      BackedTail(m, s);
      BackedIsLive(m, s[1..]);
    }
  }

  // ---- BufferSlice

  lemma OneMoreRef(m: Heap, s: BufferSlice, i: nat, base: Heap)
    requires Inv(m) && AllLive(m, s) && i < |s|
    requires forall h: HandleId :: Owed(m, h) == Owed(base, h) + multiset(s[..i])[Counted(h)]
    ensures var m' := if s[i].Counted? then Do(m, Buffers.Ref(s[i].h)) else m;
            && Inv(m') && AllLive(m', s) && Flat(m', s) == Flat(m, s)
            && forall h: HandleId :: Owed(m', h) == Owed(base, h) + multiset(s[..i + 1])[Counted(h)]
  {
    assert s[..i + 1] == s[..i] + [s[i]];
    if s[i].Counted? {
      var op := Buffers.Ref(s[i].h);
      FlatKept(m, op, s);
      forall h: HandleId ensures Owed(Do(m, op), h) == Owed(base, h) + multiset(s[..i + 1])[Counted(h)] {
        OwedChange(m, op, h);
      }
    }
  }

  /** BufferSlice.Ref */
  method RefAll(mem: Memory, s: BufferSlice)
    requires AllLive(mem.heap, s)
    modifies mem
    ensures AllLive(mem.heap, s) && Flat(mem.heap, s) == old(Flat(mem.heap, s))
    ensures forall h: HandleId :: Owed(mem.heap, h) == old(Owed(mem.heap, h)) + multiset(s)[Counted(h)]
  {
    ghost var base := mem.heap;
    for i := 0 to |s|
      invariant AllLive(mem.heap, s) && Flat(mem.heap, s) == Flat(base, s)
      invariant forall h: HandleId :: Owed(mem.heap, h) == Owed(base, h) + multiset(s[..i])[Counted(h)]
    {
      OneMoreRef(mem.heap, s, i, base);
      assert s[i] in s;
      mem.Ref(s[i]);
    }
    assert s[..|s|] == s;
  }

  /** BufferSlice.Free */
  method FreeAll(mem: Memory, s: BufferSlice)
    requires Backed(mem.heap, s)
    modifies mem
    ensures forall h: HandleId :: Owed(mem.heap, h) == old(Surplus(mem.heap, s, h))
  {
    ghost var base := mem.heap;
    BackedIsLive(base, s);
    for i := 0 to |s|
      invariant Backed(mem.heap, s[i..]) && AllLive(mem.heap, s[i..])
      invariant forall h: HandleId :: Surplus(mem.heap, s[i..], h) == Surplus(base, s, h)
    {
      ghost var m := mem.heap;
      assert s[i..][0] == s[i] && s[i..][1..] == s[i + 1..];
      assert s[i] in s[i..];
      mem.Free(s[i]);
      FreeFirst(m, s[i..], mem.heap);
    }
    forall h: HandleId ensures Owed(mem.heap, h) == Surplus(base, s, h) {
      assert Surplus(mem.heap, s[|s|..], h) == Owed(mem.heap, h);
    }
  }

  lemma {:induction false} FlatAppend(m: Heap, s: BufferSlice, b: Buf)
    requires Inv(m) && AllLive(m, s) && (b.Counted? ==> Live(m, b.h))
    ensures AllLive(m, s + [b]) && Flat(m, s + [b]) == Flat(m, s) + BufData(m, b)
  {
    assert AllLive(m, s + [b]);
    if s == [] {
      assert (s + [b])[1..] == [];
      assert s + [b] == [b];
    } else {
      assert (s + [b])[1..] == s[1..] + [b] && (s + [b])[0] == s[0];
      assert forall h: HandleId :: Counted(h) in s[1..] ==> Counted(h) in s;
      FlatAppend(m, s[1..], b);
    }
  }

  lemma FlatTake(m: Heap, s: BufferSlice, i: nat)
    requires Inv(m) && AllLive(m, s) && i < |s|
    ensures AllLive(m, s[..i]) && AllLive(m, s[..i + 1]) && (s[i].Counted? ==> Live(m, s[i].h))
    ensures Flat(m, s[..i + 1]) == Flat(m, s[..i]) + BufData(m, s[i])
  {
    assert s[i] in s;
    assert forall b :: b in s[..i] ==> b in s;
    assert s[..i + 1] == s[..i] + [s[i]];
    FlatAppend(m, s[..i], s[i]);
  }

  /** BufferSlice.Len */
  method SliceLen(mem: Memory, s: BufferSlice) returns (n: nat)
    requires AllLive(mem.heap, s)
    ensures n == |Flat(mem.heap, s)|
  {
    n := 0;
    for i := 0 to |s|
      invariant AllLive(mem.heap, s[..i]) && n == |Flat(mem.heap, s[..i])|
    {
      FlatTake(mem.heap, s, i);
      var d := mem.ReadOnlyData(s[i]);
      n := n + |d|;
    }
    assert s[..|s|] == s;
  }

  /** The cursor stands at `rest`, idx bytes into the first buffer, whose bytes are `head`. */
  ghost predicate Cursor(m: GoodHeap, data: BufferSlice, len: int, idx: nat, head: bytes, rest: bytes) {
    && Backed(m, data) && AllLive(m, data)
    && len == |rest|
    && if data == [] then rest == [] else
       && head == BufData(m, data[0])
       && idx <= |head|
       && rest == Flat(m, data)[idx..]
  }

  /** Inside the first buffer the cursor moves with the bytes read. */
  lemma CursorMoves(m: GoodHeap, data: BufferSlice, len: int, idx: nat, head: bytes, rest: bytes, cp: nat)
    requires Cursor(m, data, len, idx, head, rest) && data != [] && idx + cp <= |head|
    ensures cp <= |rest| && Cursor(m, data, len - cp, idx + cp, head, rest[cp..])
  {
    HeadOf(head, Flat(m, data[1..]), idx, cp);
  }

  ghost predicate Accounted(m: Heap, data: BufferSlice, base: Heap) {
    forall h: HandleId :: Surplus(m, data, h) == Owed(base, h)
  }

  /** NewReader's references and length. */
  method Acquire(mem: Memory, s: BufferSlice) returns (len: nat, ghost head: bytes, ghost rest: bytes)
    requires AllLive(mem.heap, s)
    modifies mem
    ensures Cursor(mem.heap, s, len, 0, head, rest)
    ensures rest == old(Flat(mem.heap, s)) && Accounted(mem.heap, s, old(mem.heap))
  {
    RefAll(mem, s);
    len := SliceLen(mem, s);
    rest := Flat(mem.heap, s);
    head := if s == [] then [] else BufData(mem.heap, s[0]);
    assert rest[0..] == rest;
  }

  class Reader {
    const mem: Memory
    var data: BufferSlice
    var len: int
    var bufferIdx: nat

    /** The bytes of the first buffer, the bytes still to be read, and the heap before NewReader. */
    ghost var head: bytes
    ghost var rest: bytes
    ghost const base: GoodHeap

    /** Besides its own references the reader leaves every handle as many as before NewReader: so when Close
        has emptied the slice, it has freed each reference NewReader took, once. */
    ghost predicate Valid()
      reads this, mem
    {
      Cursor(mem.heap, data, len, bufferIdx, head, rest) && Accounted(mem.heap, data, base)
    }

    /** NewReader */
    constructor (mem: Memory, s: BufferSlice)
      requires AllLive(mem.heap, s)
      modifies mem
      ensures Valid() && this.mem == mem && data == s && rest == old(Flat(mem.heap, s)) && base == old(mem.heap)
    {
      base := mem.heap;
      this.mem, data, bufferIdx, len, head, rest := mem, s, 0, 0, [], [];
      new;
      len, head, rest := Acquire(mem, s);
    }

    method FreeFirstBufferIfEmpty() returns (freed: bool)
      requires Valid()
      modifies this`data, this`bufferIdx, this`head, mem
      ensures Valid()
      ensures freed <==> old(data) != [] && old(bufferIdx) == |old(head)|
      ensures !freed ==> data == old(data) && bufferIdx == old(bufferIdx) && head == old(head)
      ensures freed ==> |data| < |old(data)|
    {
      if data == [] { return false; }
      var d := mem.ReadOnlyData(data[0]);
      if bufferIdx != |d| { return false; }
      ghost var m := mem.heap;
      mem.Free(data[0]);
      FreeFirst(m, data, mem.heap);
      data := data[1..];
      bufferIdx := 0;
      head := if data == [] then [] else BufData(mem.heap, data[0]);
      return true;
    }

    /** What the first buffer has left is what comes next. */
    lemma FirstIsNext()
      requires Valid() && data != []
      ensures head[bufferIdx..] <= rest
    {
      HeadOf(head, Flat(mem.heap, data[1..]), bufferIdx, |head| - bufferIdx);
    }

    /** cp bytes of the first buffer are taken; the buffer is freed if that was its end. */
    method Consume(cp: nat)
      requires Valid() && data != [] && bufferIdx + cp <= |head|
      modifies this`data, this`len, this`bufferIdx, this`head, this`rest, mem
      ensures Valid()
      ensures cp <= |old(rest)| && rest == old(rest)[cp..]
      ensures |data| <= |old(data)| && (old(bufferIdx) + cp == |old(head)| ==> |data| < |old(data)|)
    {
      CursorMoves(mem.heap, data, len, bufferIdx, head, rest, cp);
      len, bufferIdx, rest := len - cp, bufferIdx + cp, rest[cp..];
      var _ := FreeFirstBufferIfEmpty();
    }

    /** Read has copied n bytes of `all` over those of a buffer that held `was`. */
    ghost predicate Midway(now: bytes, all: bytes, was: bytes, n: nat)
      reads this, mem
    {
      Valid() && n <= |all| && n <= |was| && rest == all[n..] && CopiedInto(now, all, was, n)
    }

    /** One turn of Read's loop: copies what the first buffer has and buf has room for. buf held `was` and
        `all` was left when Read began. */
    method CopyChunk(buf: array<byte>, n: nat, ghost all: bytes, ghost was: bytes) returns (cp: nat)
      requires n < buf.Length == |was| && len != 0 && Midway(buf[..], all, was, n)
      modifies this`data, this`len, this`bufferIdx, this`head, this`rest, mem, buf
      ensures Midway(buf[..], all, was, n + cp)
      ensures |data| <= |old(data)| && (cp > 0 || |data| < |old(data)|)
    {
      ghost var now := buf[..];
      var d := mem.ReadOnlyData(data[0]);
      FirstIsNext();
      cp := FillFrom(buf, n, d, bufferIdx);
      SlicePrefix(d, bufferIdx, cp, rest);
      Advance(now, buf[..], all, was, n, cp);
      Consume(cp);
    }

    /** Read's loop. */
    method CopyChunks(buf: array<byte>, ghost all: bytes, ghost was: bytes) returns (n: nat)
      requires buf.Length == |was| && Midway(buf[..], all, was, 0)
      modifies this`data, this`len, this`bufferIdx, this`head, this`rest, mem, buf
      ensures n <= buf.Length && Midway(buf[..], all, was, n) && (n == buf.Length || len == 0)
    {
      n := 0;
      while n < buf.Length && len != 0
        invariant 0 <= n <= buf.Length && Midway(buf[..], all, was, n)
        decreases buf.Length - n, |data|
      {
        var cp := CopyChunk(buf, n, all, was);
        n := n + cp;
      }
    }

    /** Read: the next bytes of the flat string, as many as there are or fit. */
    method Read(buf: array<byte>) returns (n: nat, eof: bool)
      requires Valid()
      modifies this`data, this`len, this`bufferIdx, this`head, this`rest, mem, buf
      ensures Valid()
      ensures eof <==> old(rest) == []
      ensures n == if buf.Length < |old(rest)| then buf.Length else |old(rest)|
      ensures CopiedInto(buf[..], old(rest), old(buf[..]), n) && rest == old(rest)[n..]
    {
      NothingCopied(buf[..], rest);
      if len == 0 { return 0, true; }
      n := CopyChunks(buf, rest, buf[..]);
      return n, false;
    }

    /** ReadByte's loop: leading empty buffers are freed. */
    method SkipEmpty()
      requires Valid()
      modifies this`data, this`bufferIdx, this`head, mem
      ensures Valid()
      ensures data == [] || bufferIdx < |head|
    {
      var freed := FreeFirstBufferIfEmpty();
      while freed
        invariant Valid()
        invariant !freed ==> data == [] || bufferIdx < |head|
        decreases |data|, freed
      {
        freed := FreeFirstBufferIfEmpty();
      }
    }

    method ReadByte() returns (b: Option<byte>)
      requires Valid()
      modifies this`data, this`len, this`bufferIdx, this`head, this`rest, mem
      ensures Valid()
      ensures old(rest) == [] ==> b == None && rest == []
      ensures old(rest) != [] ==> b == Some(old(rest)[0]) && rest == old(rest)[1..]
    {
      if len == 0 { return None; }
      SkipEmpty();
      var d := mem.ReadOnlyData(data[0]);
      FirstIsNext();
      b := Some(d[bufferIdx]);
      assert head[bufferIdx..][0] == rest[0];
      Consume(1);
    }

    /** Close: the reader's references are all back, and what follows reads as at the end. */
    method Close()
      requires Valid()
      modifies this`data, this`len, this`rest, mem
      ensures Valid() && data == [] && rest == []
      ensures forall h: HandleId :: Owed(mem.heap, h) == Owed(base, h)
    {
      FreeAll(mem, data);
      data, len, rest := [], 0, [];
    }

    method Remain() returns (n: int)
      requires Valid()
      ensures n == |rest|
    {
      n := len;
    }
  }

  /** copy(buf, d) */
  method CopyFront(buf: array<byte>, d: bytes) returns (n: nat)
    modifies buf
    ensures n == if buf.Length < |d| then buf.Length else |d|
    ensures CopiedInto(buf[..], d, old(buf[..]), n)
  {
    ghost var was := buf[..];
    NothingCopied(was, d);
    n := FillFrom(buf, 0, d, 0);
    Advance(was, buf[..], d, was, 0, n);
  }

  /** copy(buf[n:], d[idx:]) */
  method FillFrom(buf: array<byte>, n: nat, d: bytes, idx: nat) returns (cp: nat)
    requires n <= buf.Length && idx <= |d|
    modifies buf
    ensures n + cp <= buf.Length && idx + cp <= |d| && (n + cp == buf.Length || idx + cp == |d|)
    ensures buf[..] == old(buf[..n]) + d[idx..idx + cp] + old(buf[n + cp..])
  {
    cp := if buf.Length - n < |d| - idx then buf.Length - n else |d| - idx;
    forall i | 0 <= i < cp { buf[n + i] := d[idx + i]; }
  }

  lemma SlicePrefix(d: bytes, idx: nat, cp: nat, rest: bytes)
    requires idx + cp <= |d| && d[idx..] <= rest
    ensures cp <= |rest| && d[idx..idx + cp] == rest[..cp]
  {
    assert d[idx..idx + cp] == d[idx..][..cp];
  }

  lemma HeadOf(d: bytes, rest: bytes, idx: nat, cp: nat)
    requires idx + cp <= |d|
    ensures (d + rest)[idx..] == d[idx..idx + cp] + (d + rest)[idx + cp..]
  {
  }

  /** The first n bytes of a buffer that held `was` are those of `all`. */
  ghost predicate CopiedInto(now: bytes, all: bytes, was: bytes, n: nat)
    requires n <= |all| && n <= |was|
  {
    now == all[..n] + was[n..]
  }

  lemma NothingCopied(was: bytes, all: bytes)
    ensures CopiedInto(was, all, was, 0) && all == all[0..]
  {
  }

  lemma Advance(now: bytes, next: bytes, all: bytes, was: bytes, n: nat, cp: nat)
    requires n + cp <= |all| && n + cp <= |was| && CopiedInto(now, all, was, n)
    requires next == now[..n] + all[n..][..cp] + now[n + cp..]
    ensures CopiedInto(next, all, was, n + cp) && all[n..][cp..] == all[n + cp..]
  {
  }
}
