/** Encode and Decode as the code runs them (protocol/message.go): a first pass over the metadata for its
    size, a second that fills a recycled buffer, and a parser that advances an offset through loops. */
module Codec {
  import opened Bytes
  import opened Results
  import opened Headers
  import opened Metadata
  import opened Compression
  import opened Wire
  import opened Frames
  import opened Pool

  /** The reader Decode is given: the bytes it will still deliver. */
  class ByteStream {
    var data: bytes

    constructor (data: bytes)
      ensures this.data == data
    {
      this.data := data;
    }

    /** io.ReadFull(r, buf) */
    method ReadFull(buf: array<byte>) returns (err: Option<DecodeError>)
      modifies this, buf
      ensures match Frames.ReadFull(old(data), buf.Length)
              case Ok((x, rest)) => err == None && buf[..] == x && data == rest
              case Err(e) => err == Some(e) && data == []
    {
      if |data| >= buf.Length {
        forall i | 0 <= i < buf.Length { buf[i] := data[i]; }
        assert buf[..] == data[..buf.Length];
        data := data[buf.Length..];
        return None;
      }
      err := if data == [] then Some(EOF) else Some(UnexpectedEOF);
      data := [];
    }

    /** io.ReadFull(r, *b), into the slice of a pooled array */
    method ReadInto(b: Backing) returns (err: Option<DecodeError>)
      requires b.len <= b.arr.Length
      modifies this, b.arr
      ensures match Frames.ReadFull(old(data), b.len)
              case Ok((x, rest)) => err == None && b.arr[..b.len] == x && data == rest
              case Err(e) => err == Some(e) && data == []
    {
      var n := b.len;
      if |data| >= n {
        forall i | 0 <= i < n { b.arr[i] := data[i]; }
        assert b.arr[..n] == data[..n];
        data := data[n..];
        return None;
      }
      err := if data == [] then Some(EOF) else Some(UnexpectedEOF);
      data := [];
    }
  }

  /** What Decode does with mem.NewBuffer: one reference, and the array back in the pool when it is freed. */
  class PooledBuffer {
    const origin: Backing
    const pool: BufferPool
    var refs: int

    constructor (origin: Backing, pool: BufferPool)
      ensures this.origin == origin && this.pool == pool && refs == 1
    {
      this.origin, this.pool, refs := origin, pool, 1;
    }

    method Free()
      requires refs == 1 && pool.Valid() && origin in pool.lent
      modifies this, pool, origin
      ensures refs == 0 && pool.Valid() && pool.lent == old(pool.lent) - {origin}
    {
      refs := refs - 1;
      pool.LentIsNotKept(origin);
      pool.Put(origin);
    }
  }

  // ---- filling a buffer

  /** copy(buf[off:off+len(s)], s), with the offset that follows. */
  method Put(buf: array<byte>, off: nat, s: bytes) returns (next: nat)
    requires off + |s| <= buf.Length
    modifies buf
    ensures next == off + |s| && buf[..next] == old(buf[..off]) + s
  {
    forall i | 0 <= i < |s| { buf[off + i] := s[i]; }
    next := off + |s|;
  }

  method PutStr(buf: array<byte>, off: nat, s: bytes) returns (next: nat)
    requires off + 4 + |s| <= buf.Length
    modifies buf
    ensures next == off + 4 + |s| && buf[..next] == old(buf[..off]) + Str(s)
  {
    next := Put(buf, off, PutLE(|s|, 4));
    next := Put(buf, next, s);
  }

  lemma {:induction false} PrintValuesSnoc(vs: seq<bytes>, v: bytes)
    ensures PrintValues(vs + [v]) == PrintValues(vs) + Str(v)
  {
    if vs == [] {
      assert PrintValues([v]) == Str(v) + [];
    } else {
      assert (vs + [v])[1..] == vs[1..] + [v];
      PrintValuesSnoc(vs[1..], v);
    }
  }

  lemma {:induction false} PrintEntriesSnoc(es: seq<Entry>, e: Entry)
    ensures PrintEntries(es + [e]) == PrintEntries(es) + PrintEntry(e)
  {
    if es == [] {
      assert PrintEntries([e]) == PrintEntry(e) + [];
    } else {
      assert (es + [e])[1..] == es[1..] + [e];
      PrintEntriesSnoc(es[1..], e);
    }
  }

  method PutValues(buf: array<byte>, off: nat, vs: seq<bytes>) returns (next: nat)
    requires off + ValuesSize(vs) <= buf.Length
    modifies buf
    ensures next == off + ValuesSize(vs) && buf[..next] == old(buf[..off]) + PrintValues(vs)
  {
    next := off;
    ghost var before := buf[..off];
    for i := 0 to |vs|
      invariant next == off + ValuesSize(vs[..i]) && next + ValuesSize(vs[i..]) <= buf.Length
      invariant buf[..next] == before + PrintValues(vs[..i])
    {
      assert vs[i..][1..] == vs[i + 1..] && vs[..i + 1] == vs[..i] + [vs[i]];
      ValuesSizeConcat(vs[..i], [vs[i]]);
      PrintValuesSnoc(vs[..i], vs[i]);
      next := PutStr(buf, next, vs[i]);
    }
    assert vs[..|vs|] == vs;
  }

  method PutEntry(buf: array<byte>, off: nat, k: bytes, vs: seq<bytes>) returns (next: nat)
    requires off + EntrySize(k, vs) <= buf.Length
    modifies buf
    ensures next == off + EntrySize(k, vs) && buf[..next] == old(buf[..off]) + PrintEntry(Entry(k, vs))
  {
    ghost var before := buf[..off];
    next := PutStr(buf, off, k);
    next := Put(buf, next, [CountByte(|vs|)]);
    next := PutValues(buf, next, vs);
    Regroup(before, Str(k), [CountByte(|vs|)], PrintValues(vs));
    assert before + Str(k) + [CountByte(|vs|)] + PrintValues(vs) == before + PrintEntry(Entry(k, vs));
  }

  lemma OneMore(md: MD, order: seq<bytes>, todo: set<bytes>, k: bytes)
    requires k in todo && todo <= md.Keys && IsOrder(order, md.Keys - todo)
    ensures IsOrder(order + [k], md.Keys - (todo - {k})) && |todo - {k}| < |todo|
    ensures PrintEntries(EntriesOf(md, order + [k])) == PrintEntries(EntriesOf(md, order)) + PrintEntry(Entry(k, md[k]))
    ensures MetaSize(Restrict(md, todo)) == EntrySize(k, md[k]) + MetaSize(Restrict(md, todo - {k}))
  {
    OrderSnoc(order, md.Keys - todo, k);
    assert md.Keys - todo + {k} == md.Keys - (todo - {k});
    assert EntriesOf(md, order + [k]) == EntriesOf(md, order) + [Entry(k, md[k])];
    PrintEntriesSnoc(EntriesOf(md, order), Entry(k, md[k]));
    MetaSizeRemove(Restrict(md, todo), k);
    assert Restrict(md, todo) - {k} == Restrict(md, todo - {k});
  }

  /** The second pass over the metadata; the ghost result is the order in which it visited the keys. */
  method PutMetadata(buf: array<byte>, off: nat, md: MD) returns (next: nat, ghost order: seq<bytes>)
    requires off + MetaSize(md) <= buf.Length
    modifies buf
    ensures IsOrder(order, md.Keys) && next == off + MetaSize(md)
    ensures buf[..next] == old(buf[..off]) + PrintEntries(EntriesOf(md, order))
  {
    next, order := off, [];
    ghost var before := buf[..off];
    var todo := md.Keys;
    assert Restrict(md, todo) == md;
    while todo != {}
      invariant todo <= md.Keys && IsOrder(order, md.Keys - todo)
      invariant next + MetaSize(Restrict(md, todo)) == off + MetaSize(md)
      invariant buf[..next] == before + PrintEntries(EntriesOf(md, order))
      decreases |todo|
    {
      var k :| k in todo;
      OneMore(md, order, todo, k);
      Assoc(before, PrintEntries(EntriesOf(md, order)), PrintEntry(Entry(k, md[k])));
      next := PutEntry(buf, next, k, md[k]);
      order, todo := order + [k], todo - {k};
    }
    assert Restrict(md, {}).Keys == {};
  }

  /** The first pass over the metadata, in whatever order. */
  method MetaLength(md: MD) returns (metaL: nat)
    ensures metaL == MetaSize(md)
  {
    metaL := 0;
    var todo := md.Keys;
    assert Restrict(md, todo) == md;
    while todo != {}
      invariant todo <= md.Keys
      invariant metaL + MetaSize(Restrict(md, todo)) == MetaSize(md)
      decreases |todo|
    {
      var k :| k in todo;
      MetaSizeRemove(Restrict(md, todo), k);
      assert Restrict(md, todo) - {k} == Restrict(md, todo - {k});
      var vs := md[k];
      metaL := metaL + 4 + |k| + 1;
      ghost var start := metaL;
      for i := 0 to |vs|
        invariant metaL == start + ValuesSize(vs[..i])
      {
        assert vs[..i + 1] == vs[..i] + [vs[i]];
        ValuesSizeConcat(vs[..i], [vs[i]]);
        metaL := metaL + 4 + |vs[i]|;
      }
      assert vs[..|vs|] == vs;
      todo := todo - {k};
    }
    assert Restrict(md, {}).Keys == {};
  }

  // ---- reading fields at an offset

  /** A length-prefixed string of data[offset..end], as decodeMessageData reads it six times. */
  method ReadStr(data: bytes, offset: nat, end: nat, f: Field) returns (r: Result<bytes, DecodeError>, next: nat)
    requires offset <= end <= |data|
    ensures match TakeStr(data[offset..end], f)
            case Ok((v, rest)) => r == Ok(v) && offset + 4 + |v| == next <= end && data[next - |v|..next] == v
                                  && data[next..end] == rest
            case Err(e) => r == Err(e)
  {
    next := offset;
    if offset + 4 > end { return Err(ShortLength(f)), next; }
    var n := GetLE(data[offset..offset + 4]);
    assert data[offset..end][..4] == data[offset..offset + 4];
    next := offset + 4;
    if next + n > end { return Err(ShortData(f)), next; }
    var v := data[next..next + n];
    next := next + n;
    SubSlice(data, offset, end, n);
    return Ok(v), next;
  }

  lemma SubSlice(data: bytes, offset: nat, end: nat, n: nat)
    requires offset + 4 + n <= end <= |data|
    ensures data[offset..end][4..4 + n] == data[offset + 4..offset + 4 + n]
    ensures data[offset..end][4 + n..] == data[offset + 4 + n..end]
  {
    var s := data[offset..end];
    var a, b := s[4..4 + n], data[offset + 4..offset + 4 + n];
    forall i | 0 <= i < n ensures a[i] == b[i] {
      assert s[4 + i] == data[offset + 4 + i];
    }
    assert a == b;
    assert s[4 + n..] == data[offset + 4 + n..end];
  }

  function AfterValues(vs: seq<bytes>, r: Result<(seq<bytes>, bytes), DecodeError>)
    : Result<(seq<bytes>, bytes), DecodeError>
  {
    match r case Err(e) => Err(e) case Ok((us, t)) => Ok((vs + us, t))
  }

  function AfterEntries(es: seq<Entry>, r: Result<seq<Entry>, DecodeError>): Result<seq<Entry>, DecodeError> {
    match r case Err(e) => Err(e) case Ok(more) => Ok(es + more)
  }

  lemma AfterNothing(r: Result<(seq<bytes>, bytes), DecodeError>, q: Result<seq<Entry>, DecodeError>)
    ensures AfterValues([], r) == r && AfterEntries([], q) == q
  {
    if r.Ok? { assert [] + r.value.0 == r.value.0; }
    if q.Ok? { assert [] + q.value == q.value; }
  }

  lemma NextValue(s: bytes, n: nat, vs: seq<bytes>)
    requires n > 0 && TakeStr(s, Value).Ok?
    ensures var (v, s1) := TakeStr(s, Value).value;
            AfterValues(vs, TakeValues(s, n)) == AfterValues(vs + [v], TakeValues(s1, n - 1))
  {
    var (v, s1) := TakeStr(s, Value).value;
    if TakeValues(s1, n - 1).Ok? {
      var (us, t) := TakeValues(s1, n - 1).value;
      assert vs + ([v] + us) == (vs + [v]) + us;
    }
  }

  lemma NextEntry(s: bytes, es: seq<Entry>)
    requires s != [] && TakeEntry(s).Ok?
    ensures var (e, s1) := TakeEntry(s).value;
            AfterEntries(es, TakeEntries(s)) == AfterEntries(es + [e], TakeEntries(s1))
  {
    var (e, s1) := TakeEntry(s).value;
    if TakeEntries(s1).Ok? {
      assert es + ([e] + TakeEntries(s1).value) == (es + [e]) + TakeEntries(s1).value;
    }
  }

  class Message {
    var header: Header
    var name: bytes
    var rpc: bytes
    var metadata: MD
    var payload: bytes

    ghost function View(): Msg
      reads this
    {
      Msg(header, name, rpc, metadata, payload)
    }

    /** NewMessage */
    constructor ()
      ensures View() == Msg(Fresh, [], [], map[], [])
    {
      header, name, rpc, metadata, payload := Fresh, [], [], map[], [];
    }

    /** Clone: the header without compression, so the sequence number is echoed, and the two names. */
    method Clone() returns (c: Message)
      ensures fresh(c)
      ensures c.View() == Msg(SetCompressType(header, NoCompression), name, rpc, map[], [])
      ensures ViewOf(c.header) == ViewOf(header).(compress := NoCompression)
    {
      CompressIndependent(header, NoCompression);
      c := new Message();
      c.header, c.name, c.rpc := SetCompressType(header, NoCompression), name, rpc;
    }

    /** The compression decision of Encode; it may clear the compress bit. */
    method Compress(env: Env) returns (p: bytes)
      modifies this`header
      ensures (header, p) == Outgoing(env, old(View()))
    {
      var ct := GetCompressType(header);
      if ct != NoCompression && |payload| >= THRESHOLD {
        if ct !in env.compressors {
          header := SetCompressType(header, NoCompression);
          return payload;
        }
        var z := Zip(env.compressors[ct], payload);
        if z.None? || |z.value| >= |payload| {
          header := SetCompressType(header, NoCompression);
          return payload;
        }
        return z.value;
      }
      if ct != NoCompression && |payload| < THRESHOLD {
        header := SetCompressType(header, NoCompression);
      }
      return payload;
    }

    /** Encode. The buffer's first contents are arbitrary, as a recycled one's are; the result says every
        byte of it is written. */
    method Encode(env: Env) returns (buf: array<byte>, ghost order: seq<bytes>)
      modifies this`header
      ensures fresh(buf) && IsOrder(order, metadata.Keys)
      ensures buf[..] == Frame(env, old(View()), order)
      ensures View() == Sent(env, old(View()))
    {
      ghost var m := View();
      var metaL := MetaLength(metadata);
      var p := Compress(env);
      var dataL := (4 + |name|) + (4 + |rpc|) + (4 + metaL) + (4 + |p|);
      buf := new byte[11 + 4 + dataL];
      var offset := Put(buf, 0, header);
      offset := Put(buf, offset, PutLE(dataL, 4));
      offset := PutStr(buf, offset, name);
      offset := PutStr(buf, offset, rpc);
      offset := Put(buf, offset, PutLE(metaL, 4));
      offset, order := PutMetadata(buf, offset, metadata);
      offset := PutStr(buf, offset, p);
      assert buf[..offset] == buf[..];
      FrameParts(env, m, order, metaL, dataL);
    }

    /** decodeMessageData's loop over the values of one key. */
    method DecodeValues(env: Env, data: bytes, start: nat, end: nat, key: bytes, count: nat)
      returns (err: Option<DecodeError>, offset: nat)
      requires start <= end <= |data|
      modifies this`metadata
      ensures match TakeValues(data[start..end], count)
              case Ok((vs, rest)) => err == None && start <= offset <= end && data[offset..end] == rest
                                     && metadata == Append(env.lower, old(metadata), key, vs)
              case Err(e) => err == Some(e)
    {
      offset := start;
      ghost var was := metadata;
      ghost var vs: seq<bytes>, left := [], data[start..end];
      ghost var all := TakeValues(left, count);
      AfterNothing(all, Ok([]));
      var i := 0;
      while i < count
        invariant 0 <= i <= count && start <= offset <= end && left == data[offset..end]
        invariant ValuesLeft(vs, left, count - i, all) && Gathered(env.lower, was, key, vs, metadata)
      {
        ValuesNext(vs, left, count - i, all);
        var v, next := ReadStr(data, offset, end, Value);
        if v.Err? { return Some(v.error), next; }
        AppendOne(env.lower, was, key, vs, metadata, v.value);
        metadata := Append(env.lower, metadata, key, [v.value]);
        vs, left, offset, i := vs + [v.value], data[next..end], next, i + 1;
      }
      ValuesDone(vs, left, all);
      return None, offset;
    }

    /** decodeMessageData's loop over the metadata entries. */
    method DecodeEntries(env: Env, data: bytes, start: nat, end: nat) returns (err: Option<DecodeError>)
      requires start <= end <= |data| && metadata == map[]
      modifies this`metadata
      ensures match TakeEntries(data[start..end])
              case Ok(es) => err == None && metadata == Collect(env.lower, es)
              case Err(e) => err == Some(e)
    {
      var offset := start;
      ghost var es: seq<Entry> := [];
      ghost var all := TakeEntries(data[start..end]);
      AfterNothing(Ok(([], [])), all);
      while offset < end
        invariant start <= offset <= end
        invariant AfterEntries(es, TakeEntries(data[offset..end])) == all
        invariant metadata == Collect(env.lower, es)
      {
        ghost var s := data[offset..end];
        NextEntryOrError(s, es);
        var k, next := ReadStr(data, offset, end, Key);
        if k.Err? { return Some(k.error); }
        if next >= end { return Some(ShortValueCount); }
        assert data[next..end][0] == data[next] && data[next..end][1..] == data[next + 1..end];
        var verr, last := DecodeValues(env, data, next + 1, end, k.value, data[next] as nat);
        if verr.Some? { return verr; }
        ghost var e := TakeEntry(s).value.0;
        assert (es + [e])[..|es|] == es;
        es, offset := es + [e], last;
      }
      assert es + [] == es;
      return None;
    }

    /** The payload part of decodeMessageData. */
    method SetPayload(env: Env, p: bytes) returns (err: Option<DecodeError>)
      modifies this`payload
      ensures match Unpacked(env, header, p)
              case Ok(q) => err == None && payload == q
              case Err(e) => err == Some(e)
    {
      payload := p;
      if |p| > 0 {
        var ct := GetCompressType(header);
        if ct != NoCompression {
          if ct !in env.compressors { return Some(UnsupportedCompressor); }
          var q := Unzip(env.compressors[ct], p);
          if q.None? { return Some(Corrupt); }
          payload := q.value;
        }
      }
      return None;
    }

    /** decodeMessageData from the metadata on. */
    method DecodeTail(env: Env, data: bytes, start: nat) returns (r: Result<bytes, DecodeError>)
      requires start <= |data|
      modifies this`metadata
      ensures match ParseTail(data[start..])
              case Ok((es, p, _)) => r == Ok(p) && metadata == Collect(env.lower, es)
              case Err(e) => r == Err(e)
    {
      var end := |data|;
      assert data[start..end] == data[start..];
      var meta, metaEnd := ReadStr(data, start, end, Field.Metadata);
      metadata := map[];
      if meta.Err? { return meta; }
      var merr := DecodeEntries(env, data, metaEnd - |meta.value|, metaEnd);
      if merr.Some? { return Err(merr.value); }
      var offset;
      r, offset := ReadStr(data, metaEnd, end, Field.Payload);
    }

    /** decodeMessageData */
    method DecodeMessageData(env: Env, data: bytes) returns (err: Option<DecodeError>)
      modifies this`name, this`rpc, this`metadata, this`payload
      ensures match DecodeData(env, header, data)
              case Ok(m) => err == None && View() == m
              case Err(e) => err == Some(e)
    {
      var end := |data|;
      assert data[0..end] == data;
      var s, offset := ReadStr(data, 0, end, ServiceName);
      if s.Err? { return Some(s.error); }
      name := s.value;
      s, offset := ReadStr(data, offset, end, ServiceMethod);
      if s.Err? { return Some(s.error); }
      rpc := s.value;
      assert data[offset..end] == data[offset..];
      var p := DecodeTail(env, data, offset);
      if p.Err? { return Some(p.error); }
      err := SetPayload(env, p.value);
    }

    /** Decode's path for more than 1 KiB: an array of the pool is filled, wrapped and freed. It goes back when
        the read fails, when the parse fails and when it succeeds. */
    method DecodePooled(env: Env, r: ByteStream, pool: BufferPool, dataLen: nat) returns (err: Option<DecodeError>)
      requires pool.Valid() && dataLen > 0
      modifies this`name, this`rpc, this`metadata, this`payload, r, pool, pool.Kept(), set b | b in pool.Kept() :: b.arr
      ensures pool.Valid() && pool.lent == old(pool.lent)
      ensures match Frames.ReadFull(old(r.data), dataLen)
              case Err(e) => err == Some(e) && r.data == []
              case Ok((data, rest)) =>
                && r.data == rest
                && match DecodeData(env, header, data)
                   case Ok(m) => err == None && View() == m
                   case Err(e) => err == Some(e)
    {
      var restBuf := pool.Get(dataLen);
      err := r.ReadInto(restBuf);
      if err.Some? {
        pool.LentIsNotKept(restBuf);
        pool.Put(restBuf);
        return;
      }
      var dataBuf := new PooledBuffer(restBuf, pool);
      err := DecodeMessageData(env, restBuf.arr[..dataLen]);
      dataBuf.Free();
    }

    /** Decode: the small path and the pooled path read the same bytes, and the pool is owed nothing afterwards. */
    method Decode(env: Env, r: ByteStream, pool: BufferPool, maxLength: int) returns (err: Option<DecodeError>)
      requires pool.Valid()
      modifies this, r, pool, pool.Kept(), set b | b in pool.Kept() :: b.arr
      ensures pool.Valid() && pool.lent == old(pool.lent)
      ensures match DecodeFrame(env, old(r.data), maxLength)
              case Decoded(m, rest) => err == None && View() == m && r.data == rest
              case Failed(e, rest) => err == Some(e) && r.data == rest
    {
      var headerBuf := new byte[11];
      err := r.ReadFull(headerBuf);
      if err.Some? { return; }
      header := headerBuf[..];
      if !CheckMagicNumber(header) { return Some(WrongMagic); }
      var lenData := new byte[4];
      err := r.ReadFull(lenData);
      if err.Some? { return; }
      var dataLen := GetLE(lenData[..]);
      if maxLength > 0 && maxLength < dataLen { return Some(TooLong); }
      if dataLen <= 1024 {
        var buf := new byte[dataLen];
        err := r.ReadFull(buf);
        if err.Some? { return; }
        err := DecodeMessageData(env, buf[..]);
      } else {
        err := DecodePooled(env, r, pool, dataLen);
      }
    }
  }

  /** vs were read, and reading n more from `left` gives `all`. */
  ghost predicate ValuesLeft(vs: seq<bytes>, left: bytes, n: nat, all: Result<(seq<bytes>, bytes), DecodeError>) {
    AfterValues(vs, TakeValues(left, n)) == all
  }

  lemma ValuesNext(vs: seq<bytes>, left: bytes, n: nat, all: Result<(seq<bytes>, bytes), DecodeError>)
    requires n > 0 && ValuesLeft(vs, left, n, all)
    ensures match TakeStr(left, Value)
            case Err(e) => all == Err(e)
            case Ok((v, rest)) => ValuesLeft(vs + [v], rest, n - 1, all)
  {
    if TakeStr(left, Value).Ok? { NextValue(left, n, vs); }
  }

  lemma ValuesDone(vs: seq<bytes>, left: bytes, all: Result<(seq<bytes>, bytes), DecodeError>)
    requires ValuesLeft(vs, left, 0, all)
    ensures all == Ok((vs, left))
  {
    assert vs + [] == vs;
  }

  lemma NextEntryOrError(s: bytes, es: seq<Entry>)
    requires s != []
    ensures match TakeEntry(s)
            case Err(e) => AfterEntries(es, TakeEntries(s)) == Err(e)
            case Ok((e, s1)) => AfterEntries(es, TakeEntries(s)) == AfterEntries(es + [e], TakeEntries(s1))
  {
    if TakeEntry(s).Ok? { NextEntry(s, es); }
  }

  ghost predicate Gathered(lower: Lower, was: MD, key: bytes, vs: seq<bytes>, now: MD) {
    now == Append(lower, was, key, vs)
  }

  lemma AppendOne(lower: Lower, md: MD, key: bytes, vs: seq<bytes>, now: MD, v: bytes)
    requires Gathered(lower, md, key, vs, now)
    ensures Gathered(lower, md, key, vs + [v], Append(lower, now, key, [v]))
  {
    var k := lower(key);
    assert (Lookup(md, k) + vs) + [v] == Lookup(md, k) + (vs + [v]);
    if vs == [] { assert vs + [v] == [v]; }
  }

  lemma FrameParts(env: Env, m: Msg, order: seq<bytes>, metaL: nat, dataL: nat)
    requires IsOrder(order, m.metadata.Keys) && metaL == MetaSize(m.metadata) && dataL == DataLength(env, m)
    ensures var (h, p) := Outgoing(env, m);
            [] + h + PutLE(dataL, 4) + Str(m.name) + Str(m.rpc) + PutLE(metaL, 4)
            + PrintEntries(EntriesOf(m.metadata, order)) + Str(p) == Frame(env, m, order)
  {
    var (h, p) := Outgoing(env, m);
    var es := PrintEntries(EntriesOf(m.metadata, order));
    ExactTiling(env, m, order);
    OrderedSize(m.metadata, order, m.metadata.Keys);
    assert Restrict(m.metadata, m.metadata.Keys) == m.metadata;
    EntriesLength(EntriesOf(m.metadata, order));
    Flatten(h, PutLE(dataL, 4), Str(m.name), Str(m.rpc), PutLE(metaL, 4), es, Str(p));
  }

  lemma Flatten(h: bytes, l: bytes, a: bytes, b: bytes, n: bytes, es: bytes, p: bytes)
    ensures [] + h + l + a + b + n + es + p == h + l + (a + b + (n + es) + p)
  {
  }

  /** One message over one stream: whatever orders the two passes of Encode visited the metadata in, Decode
      restores the message as it was sent and stops where it ends. */
  method Transmit(env: Env, m: Message, rest: bytes, maxLength: int) returns (got: Message, r: ByteStream)
    requires LosslessEnv(env) && Carries(env, m.View(), maxLength)
    modifies m`header
    ensures got.View() == Sent(env, old(m.View())) == m.View() && r.data == rest
  {
    var buf, order := m.Encode(env);
    RoundTrip(env, old(m.View()), order, rest, maxLength);
    r := new ByteStream(buf[..] + rest);
    got := new Message();
    var pool := new BufferPool();
    var err := got.Decode(env, r, pool, maxLength);
  }
}
