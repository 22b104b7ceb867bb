/** Messages as values: what Encode puts on the wire and what Decode reads back (protocol/message.go). */
module Frames {
  import opened Bytes
  import opened Results
  import opened Headers
  import opened Metadata
  import opened Compression
  import opened Wire

  datatype Env = Env(lower: Lower, compressors: map<byte, Compressor>)

  datatype Msg = Msg(header: Header, name: bytes, rpc: bytes, metadata: MD, payload: bytes)

  // ---- metadata as entries

  /** The entries Encode writes when `range` visits the keys in the given order. */
  function EntriesOf(md: MD, order: seq<bytes>): (es: seq<Entry>)
    requires forall k :: k in order ==> k in md
    ensures |es| == |order|
    ensures forall i :: 0 <= i < |order| ==> es[i] == Entry(order[i], md[order[i]])
  {
    seq(|order|, i requires 0 <= i < |order| => assert order[i] in order; Entry(order[i], md[order[i]]))
  }

  /** The map Decode builds by appending the entries in turn. */
  function Collect(lower: Lower, es: seq<Entry>): MD {
    if es == [] then map[] else
    var n := |es| - 1;
    Append(lower, Collect(lower, es[..n]), es[n].key, es[n].values)
  }

  ghost function Pick(md: MD): (k: bytes)
    requires md.Keys != {}
    ensures k in md
  {
    var k :| k in md; k
  }

  /** Bytes of metadata on the wire, with no order mentioned. */
  ghost function MetaSize(md: MD): nat
    decreases |md|
  {
    if md.Keys == {} then 0 else
    var k := Pick(md);
    EntrySize(k, md[k]) + MetaSize(md - {k})
  }

  lemma {:induction false} MetaSizeRemove(md: MD, k: bytes)
    requires k in md
    ensures MetaSize(md) == EntrySize(k, md[k]) + MetaSize(md - {k})
    decreases |md|
  {
    var p := Pick(md);
    if p != k {
      MetaSizeRemove(md - {p}, k);
      MetaSizeRemove(md - {k}, p);
      assert md - {p} - {k} == md - {k} - {p};
    }
  }

  lemma MetaSizeInsert(md: MD, k: bytes, vs: seq<bytes>)
    requires k !in md
    ensures MetaSize(md[k := vs]) == EntrySize(k, vs) + MetaSize(md)
  {
    MetaSizeRemove(md[k := vs], k);
    assert md[k := vs] - {k} == md;
  }

  lemma MetaSizeExtend(md: MD, k: bytes, vs: seq<bytes>)
    requires k in md
    ensures MetaSize(Extend(md, k, vs)) == MetaSize(md) + ValuesSize(vs)
  {
    MetaSizeRemove(md, k);
    MetaSizeRemove(Extend(md, k, vs), k);
    assert Extend(md, k, vs) - {k} == md - {k};
    ValuesSizeConcat(md[k], vs);
  }

  lemma {:induction false} ValuesSizeConcat(us: seq<bytes>, vs: seq<bytes>)
    ensures ValuesSize(us + vs) == ValuesSize(us) + ValuesSize(vs)
  {
    if us == [] {
      assert us + vs == vs;
    } else {
      assert (us + vs)[1..] == us[1..] + vs;
      ValuesSizeConcat(us[1..], vs);
    }
  }

  lemma {:induction false} EntriesSizeSnoc(es: seq<Entry>)
    requires es != []
    ensures var n := |es| - 1;
            EntriesSize(es) == EntriesSize(es[..n]) + EntrySize(es[n].key, es[n].values)
  {
    if |es| > 1 {
      EntriesSizeSnoc(es[1..]);
      assert es[1..][..|es| - 2] == es[..|es| - 1][1..];
    }
  }

  lemma EntriesPrefix(md: MD, order: seq<bytes>, n: nat)
    requires n <= |order| && forall k :: k in order ==> k in md
    ensures (forall k :: k in order[..n] ==> k in md) && EntriesOf(md, order)[..n] == EntriesOf(md, order[..n])
  {
    assert forall k :: k in order[..n] ==> k in order;
  }

  lemma RestrictAll(md: MD)
    ensures Restrict(md, md.Keys) == md
  {
  }

  lemma RestrictMinus(md: MD, keys: set<bytes>, k: bytes)
    requires keys <= md.Keys
    ensures Restrict(md, keys) - {k} == Restrict(md, keys - {k})
  {
  }

  /** The size of the written metadata does not depend on the visiting order. */
  lemma {:induction false} OrderedSize(md: MD, order: seq<bytes>, keys: set<bytes>)
    requires IsOrder(order, keys) && keys <= md.Keys
    ensures EntriesSize(EntriesOf(md, order)) == MetaSize(Restrict(md, keys))
    decreases |order|
  {
    if order != [] {
      var n := |order| - 1;
      var k := order[n];
      OrderPrefix(order, keys);
      OrderedSize(md, order[..n], keys - {k});
      MetaSizeRemove(Restrict(md, keys), k);
      RestrictMinus(md, keys, k);
      EntriesSizeSnoc(EntriesOf(md, order));
      EntriesPrefix(md, order, n);
    } else {
      assert Restrict(md, keys).Keys == {};
    }
  }

  lemma RestrictAppend(lower: Lower, md: MD, keys: set<bytes>, k: bytes)
    requires k in keys && keys <= md.Keys && lower(k) == k && md[k] != []
    ensures Append(lower, Restrict(md, keys - {k}), k, md[k]) == Restrict(md, keys)
  {
    assert Lookup(Restrict(md, keys - {k}), k) + md[k] == md[k];
  }

  /** Decoding the entries of `md` gives `md` back when its keys are lower case and have values. */
  lemma {:induction false} CollectOrdered(lower: Lower, md: MD, order: seq<bytes>, keys: set<bytes>)
    requires IsOrder(order, keys) && keys <= md.Keys
    requires forall k :: k in keys ==> lower(k) == k && md[k] != []
    ensures Collect(lower, EntriesOf(md, order)) == Restrict(md, keys)
    decreases |order|
  {
    if order != [] {
      var n := |order| - 1;
      var k := order[n];
      OrderPrefix(order, keys);
      CollectOrdered(lower, md, order[..n], keys - {k});
      EntriesPrefix(md, order, n);
      RestrictAppend(lower, md, keys, k);
    } else {
      assert Restrict(md, keys) == map[];
    }
  }

  /** Every key of a decoded map is the lower case of something and has at least one value. */
  lemma {:induction false} CollectFacts(lower: Lower, es: seq<Entry>)
    ensures forall k :: k in Collect(lower, es) ==>
      Collect(lower, es)[k] != [] && exists x :: lower(x) == k
  {
    if es != [] {
      CollectFacts(lower, es[..|es| - 1]);
    }
  }

  /** No key of md is the lower case of a shorter name. For ASCII keys this holds of strings.ToLower, although it
      does change lengths. */
  ghost predicate NoneShorter(lower: Lower, md: MD) {
    forall x :: lower(x) in md ==> |lower(x)| <= |x|
  }

  predicate ValuesWithin(md: MD, n: nat) {
    forall k :: k in md ==> |md[k]| <= n
  }

  /** A decoded map is never larger than the bytes it was read from; it is equally large only when no key
      was read twice, and then no key has more values than a count byte can say. */
  lemma {:induction false} CollectSize(lower: Lower, es: seq<Entry>)
    requires NoneShorter(lower, Collect(lower, es)) && CountsFit(es)
    ensures MetaSize(Collect(lower, es)) <= EntriesSize(es)
    ensures MetaSize(Collect(lower, es)) == EntriesSize(es) ==> ValuesWithin(Collect(lower, es), 255)
  {
    if es != [] {
      var n := |es| - 1;
      var prev, e := Collect(lower, es[..n]), es[n];
      assert forall k :: k in prev ==> k in Collect(lower, es);
      CollectSize(lower, es[..n]);
      EntriesSizeSnoc(es);
      var k := lower(e.key);
      if e.values != [] {
        if k in prev {
          MetaSizeExtend(prev, k, e.values);
        } else {
          assert Extend(prev, k, e.values) == prev[k := e.values] by { assert [] + e.values == e.values; }
          MetaSizeInsert(prev, k, e.values);
        }
      }
    }
  }

  // ---- the compression decision

  /** The header and payload Encode sends: compression is revoked when the payload is small, the compressor
      is missing or fails, or its output is not shorter. */
  function Outgoing(env: Env, m: Msg): (Header, bytes) {
    var ct := GetCompressType(m.header);
    var revoked := SetCompressType(m.header, NoCompression);
    if ct != NoCompression && |m.payload| >= THRESHOLD then
      if ct !in env.compressors then (revoked, m.payload) else
      match Zip(env.compressors[ct], m.payload)
      case None => (revoked, m.payload)
      case Some(z) => if |z| >= |m.payload| then (revoked, m.payload) else (m.header, z)
    else if ct != NoCompression then (revoked, m.payload)
    else (m.header, m.payload)
  }

  /** The message as it is after Encode. */
  function Sent(env: Env, m: Msg): Msg { m.(header := Outgoing(env, m).0) }

  predicate Raw(env: Env, m: Msg) { GetCompressType(Outgoing(env, m).0) == NoCompression }

  ghost predicate LosslessEnv(env: Env) {
    forall ct :: ct in env.compressors ==> Lossless(env.compressors[ct])
  }

  lemma RevokedBit(h: Header)
    ensures ViewOf(SetCompressType(h, NoCompression)) == ViewOf(h).(compress := NoCompression)
  {
    CompressIndependent(h, NoCompression);
  }

  /** The wire's compress bit is set exactly when the payload bytes are shorter compressor output, and
      clearing it changes nothing else the header says. */
  lemma CompressBit(env: Env, m: Msg)
    ensures var (h, p) := Outgoing(env, m);
            var ct := GetCompressType(m.header);
            && ViewOf(h).(compress := ct) == ViewOf(m.header)
            && (!Raw(env, m) <==> ct != NoCompression && |m.payload| >= THRESHOLD && ct in env.compressors
                                  && Zip(env.compressors[ct], m.payload) == Some(p) && |p| < |m.payload|)
            && (Raw(env, m) ==> p == m.payload)
  {
    RevokedBit(m.header);
    assert ViewOf(m.header).(compress := GetCompressType(m.header)) == ViewOf(m.header);
  }

  /** With the default compressors the bit is set exactly when gzip was asked for, the payload is large enough and
      gzip shortens it; the payload sent is then gzip's output, even though Zip may return raw data. */
  lemma DefaultCompressBit(gzip: Codec, lower: Lower, m: Msg)
    ensures var env := Env(lower, DefaultCompressors(gzip));
            var z := gzip.zip(m.payload);
            && (!Raw(env, m) <==>
                GetCompressType(m.header) == Gzip && |m.payload| >= THRESHOLD && z.Some? && |z.value| < |m.payload|)
            && (!Raw(env, m) ==> z == Some(Outgoing(env, m).1))
            && (Raw(env, m) ==> Outgoing(env, m).1 == m.payload)
  {
    CompressBit(Env(lower, DefaultCompressors(gzip)), m);
    OneBit(m.header);
    ShorterIsZipped(gzip, m.payload);
  }

  /** The round trip applies to the shipped compressors. */
  lemma DefaultsAreLosslessEnv(gzip: Codec, lower: Lower)
    requires GzipLaw(gzip)
    ensures LosslessEnv(Env(lower, DefaultCompressors(gzip)))
  {
    DefaultsAreLossless(gzip);
  }

  lemma OneBit(h: Header)
    ensures GetCompressType(h) == NoCompression || GetCompressType(h) == Gzip
  {
  }

  // ---- frames

  function BodyOf(env: Env, m: Msg, order: seq<bytes>): Body
    requires forall k :: k in order ==> k in m.metadata
  {
    Body(m.name, m.rpc, EntriesOf(m.metadata, order), Outgoing(env, m).1)
  }

  /** The bytes Encode returns. */
  function Frame(env: Env, m: Msg, order: seq<bytes>): bytes
    requires forall k :: k in order ==> k in m.metadata
  {
    var data := PrintBody(BodyOf(env, m, order));
    Outgoing(env, m).0 + PutLE(|data|, 4) + data
  }

  /** Encode's `dataL`: the data length, computed before anything is written. */
  ghost function DataLength(env: Env, m: Msg): nat {
    (4 + |m.name|) + (4 + |m.rpc|) + (4 + MetaSize(m.metadata)) + (4 + |Outgoing(env, m).1|)
  }

  /** Exact tiling: the length computed in the first pass over the map is the number of bytes written by the
      second, for any visiting order of either pass. */
  lemma ExactTiling(env: Env, m: Msg, order: seq<bytes>)
    requires IsOrder(order, m.metadata.Keys)
    ensures |PrintBody(BodyOf(env, m, order))| == DataLength(env, m)
    ensures |Frame(env, m, order)| == 11 + 4 + DataLength(env, m)
  {
    MetaLengthOf(m.metadata, order);
    BodyLength(BodyOf(env, m, order));
  }

  lemma MetaLengthOf(md: MD, order: seq<bytes>)
    requires IsOrder(order, md.Keys)
    ensures |PrintEntries(EntriesOf(md, order))| == EntriesSize(EntriesOf(md, order)) == MetaSize(md)
  {
    OrderedSize(md, order, md.Keys);
    RestrictAll(md);
    EntriesLength(EntriesOf(md, order));
  }

  /** The client's compressedLength statistic, from the length of the whole frame. */
  ghost function CompressedLength(env: Env, m: Msg, wireLength: int): int {
    if GetCompressType(Outgoing(env, m).0) != NoCompression then
      wireLength - 11 - 4 - (4 + |m.name|) - (4 + |m.rpc|) - (4 + MetaSize(m.metadata)) - 4
    else |m.payload|
  }

  lemma CompressedLengthIsWirePayload(env: Env, m: Msg, order: seq<bytes>)
    requires IsOrder(order, m.metadata.Keys)
    ensures CompressedLength(env, m, |Frame(env, m, order)|) == |Outgoing(env, m).1|
  {
    ExactTiling(env, m, order);
    CompressBit(env, m);
  }

  // ---- decoding

  datatype Decoded = Decoded(msg: Msg, rest: bytes) | Failed(error: DecodeError, rest: bytes)

  /** io.ReadFull */
  function ReadFull(s: bytes, n: nat): (r: Result<(bytes, bytes), DecodeError>)
    ensures r.Ok? ==> |r.value.0| == n && r.value.0 + r.value.1 == s
  {
    if |s| >= n then Ok((s[..n], s[n..])) else if s == [] then Err(EOF) else Err(UnexpectedEOF)
  }

  function Unpacked(env: Env, h: Header, payload: bytes): Result<bytes, DecodeError> {
    var ct := GetCompressType(h);
    if payload == [] || ct == NoCompression then Ok(payload)
    else if ct !in env.compressors then Err(UnsupportedCompressor)
    else match Unzip(env.compressors[ct], payload)
      case None => Err(Corrupt)
      case Some(p) => Ok(p)
  }

  /** decodeMessageData */
  function DecodeData(env: Env, h: Header, data: bytes): Result<Msg, DecodeError> {
    match ParseBody(data)
    case Err(e) => Err(e)
    case Ok((b, _)) =>
      match Unpacked(env, h, b.payload)
      case Err(e) => Err(e)
      case Ok(p) => Ok(Msg(h, b.name, b.rpc, Collect(env.lower, b.entries), p))
  }

  /** The header and the data length at the front of the stream; the error carries what is left of it. */
  function ReadPrefix(s: bytes): Result<(Header, nat, bytes), (DecodeError, bytes)> {
    match ReadFull(s, HEADER_LEN)
    case Err(e) => Err((e, []))
    case Ok((h, s1)) =>
      if !CheckMagicNumber(h) then Err((WrongMagic, s1)) else
      match ReadFull(s1, 4)
      case Err(e) => Err((e, []))
      case Ok((l, s2)) => Ok((h, GetLE(l), s2))
  }

  /** Decode, on the bytes the stream will deliver. */
  function DecodeFrame(env: Env, s: bytes, maxLength: int): Decoded {
    match ReadPrefix(s)
    case Err((e, rest)) => Failed(e, rest)
    case Ok((h, dataLen, s2)) => DecodeRest(env, h, s2, dataLen, maxLength)
  }

  function DecodeRest(env: Env, h: Header, s: bytes, dataLen: nat, maxLength: int): Decoded {
    if maxLength > 0 && maxLength < dataLen then Failed(TooLong, s) else
    match ReadFull(s, dataLen)
    case Err(e) => Failed(e, [])
    case Ok((data, rest)) =>
      match DecodeData(env, h, data)
      case Err(e) => Failed(e, rest)
      case Ok(m) => Decoded(m, rest)
  }

  // ---- round trip

  /** What Encode and Decode carry: a zrpc header, lower-case keys with 1 to 255 values, a data length of
      four bytes within the receiver's limit. */
  ghost predicate Carries(env: Env, m: Msg, maxLength: int) {
    && CheckMagicNumber(m.header)
    && (forall k :: k in m.metadata ==> env.lower(k) == k && 1 <= |m.metadata[k]| <= 255)
    && DataLength(env, m) < UINT32
    && (maxLength > 0 ==> DataLength(env, m) <= maxLength)
  }

  lemma PrefixOf(h: Header, data: bytes, rest: bytes)
    requires CheckMagicNumber(h)
    ensures ReadPrefix(h + PutLE(|data|, 4) + data + rest) == Ok((h, |data| % UINT32, data + rest))
  {
    var l := PutLE(|data|, 4);
    var s2 := data + rest;
    var s1 := l + s2;
    Regroup(h, l, data, rest);
    FrontOf(h, s1);
    FrontOf(l, s2);
    GetPut32(|data|);
  }

  lemma WholeFrame(env: Env, s: bytes, h: Header, data: bytes, rest: bytes, m: Msg, maxLength: int)
    requires ReadPrefix(s) == Ok((h, |data|, data + rest)) && (maxLength > 0 ==> |data| <= maxLength)
    requires DecodeData(env, h, data) == Ok(m)
    ensures DecodeFrame(env, s, maxLength) == Decoded(m, rest)
  {
    FrontOf(data, rest);
  }

  lemma FrontOf(a: bytes, b: bytes)
    ensures ReadFull(a + b, |a|) == Ok((a, b))
  {
    assert (a + b)[..|a|] == a && (a + b)[|a|..] == b;
  }

  lemma PayloadRoundTrip(env: Env, m: Msg)
    requires LosslessEnv(env)
    ensures var (h, p) := Outgoing(env, m); Unpacked(env, h, p) == Ok(m.payload)
  {
    CompressBit(env, m);
  }

  lemma CarriedBody(env: Env, m: Msg, order: seq<bytes>, maxLength: int)
    requires IsOrder(order, m.metadata.Keys) && Carries(env, m, maxLength)
    ensures Carried(BodyOf(env, m, order))
  {
    ExactTiling(env, m, order);
    BodyLength(BodyOf(env, m, order));
    assert forall i :: 0 <= i < |order| ==> order[i] in order;
  }

  lemma DataRoundTrip(env: Env, m: Msg, order: seq<bytes>, maxLength: int)
    requires LosslessEnv(env) && IsOrder(order, m.metadata.Keys) && Carries(env, m, maxLength)
    ensures DecodeData(env, Outgoing(env, m).0, PrintBody(BodyOf(env, m, order))) == Ok(Sent(env, m))
  {
    var b := BodyOf(env, m, order);
    CarriedBody(env, m, order, maxLength);
    ParsePrinted(b, []);
    assert PrintBody(b) + [] == PrintBody(b);
    PayloadRoundTrip(env, m);
    CollectOrdered(env.lower, m.metadata, order, m.metadata.Keys);
    RestrictAll(m.metadata);
  }

  lemma FramePrefix(env: Env, m: Msg, order: seq<bytes>, rest: bytes, maxLength: int)
    requires IsOrder(order, m.metadata.Keys) && Carries(env, m, maxLength)
    ensures var data := PrintBody(BodyOf(env, m, order));
            ReadPrefix(Frame(env, m, order) + rest) == Ok((Outgoing(env, m).0, |data|, data + rest))
  {
    var (h, p) := Outgoing(env, m);
    var data := PrintBody(BodyOf(env, m, order));
    ExactTiling(env, m, order);
    MagicKept(env, m);
    PrefixOf(h, data, rest);
    SmallMod32(|data|);
  }

  lemma MagicKept(env: Env, m: Msg)
    ensures CheckMagicNumber(Outgoing(env, m).0) <==> CheckMagicNumber(m.header)
  {
    CompressBit(env, m);
    assert ViewOf(Outgoing(env, m).0).magic == ViewOf(m.header).magic;
  }

  lemma SmallMod32(n: nat)
    requires n < UINT32
    ensures n % UINT32 == n
  {
  }

  /** Round trip: for every carried message and every visiting order, Decode restores the message as it was
      sent and leaves the rest of the stream. */
  lemma RoundTrip(env: Env, m: Msg, order: seq<bytes>, rest: bytes, maxLength: int)
    requires LosslessEnv(env) && IsOrder(order, m.metadata.Keys) && Carries(env, m, maxLength)
    ensures DecodeFrame(env, Frame(env, m, order) + rest, maxLength) == Decoded(Sent(env, m), rest)
  {
    ExactTiling(env, m, order);
    FramePrefix(env, m, order, rest, maxLength);
    DataRoundTrip(env, m, order, maxLength);
    WholeFrame(env, Frame(env, m, order) + rest, Outgoing(env, m).0, PrintBody(BodyOf(env, m, order)), rest,
      Sent(env, m), maxLength);
  }

  /** What a successful decode of a frame starts from: its header, and as much of its data as the length field says. */
  lemma ReceivedData(env: Env, m: Msg, order: seq<bytes>, rest: bytes, maxLength: int)
    requires IsOrder(order, m.metadata.Keys)
    requires DecodeFrame(env, Frame(env, m, order) + rest, maxLength) == Decoded(Sent(env, m), rest)
    ensures var data := PrintBody(BodyOf(env, m, order));
            var n := DataLength(env, m) % UINT32;
            && CheckMagicNumber(m.header) && n <= |data| == DataLength(env, m) && (maxLength > 0 ==> n <= maxLength)
            && DecodeData(env, Outgoing(env, m).0, data[..n]) == Ok(Sent(env, m))
  {
    var h, data := Outgoing(env, m).0, PrintBody(BodyOf(env, m, order));
    ExactTiling(env, m, order);
    MagicKept(env, m);
    assert CheckMagicNumber(h) by {
      var s := Frame(env, m, order) + rest;
      assert s[..HEADER_LEN] == h;
    }
    PrefixOf(h, data, rest);
    ModAtMost(|data|);
    var n := |data| % UINT32;
    assert (data + rest)[..n] == data[..n];
  }

  lemma ModAtMost(n: nat)
    ensures n % UINT32 <= n
  {
  }

  /** A decoded map has lower-case keys with values. */
  lemma DecodedKeys(lower: Lower, es: seq<Entry>, md: MD)
    requires Idempotent(lower) && Collect(lower, es) == md
    ensures forall k :: k in md ==> lower(k) == k && md[k] != []
  {
    CollectFacts(lower, es);
    forall k | k in md
      ensures lower(k) == k
    {
      var x :| lower(x) == k;
    }
  }

  /** Frames whose data length fits its field: names, metadata block and payload arrive whole. */
  lemma WholeIsCarried(env: Env, m: Msg, order: seq<bytes>)
    requires Idempotent(env.lower) && IsOrder(order, m.metadata.Keys) && DataLength(env, m) < UINT32
    requires NoneShorter(env.lower, m.metadata) || ValuesWithin(m.metadata, 255)
    requires DecodeData(env, Outgoing(env, m).0, PrintBody(BodyOf(env, m, order))) == Ok(Sent(env, m))
    ensures forall k :: k in m.metadata ==> env.lower(k) == k && 1 <= |m.metadata[k]| <= 255
  {
    var meta := PrintEntries(EntriesOf(m.metadata, order));
    MetaLengthOf(m.metadata, order);
    BlockRead(env, m, order);
    DecodedKeys(env.lower, TakeEntries(meta).value, m.metadata);
    if NoneShorter(env.lower, m.metadata) { BlockWithin(env.lower, meta, m.metadata); }
  }

  lemma BlockRead(env: Env, m: Msg, order: seq<bytes>)
    requires IsOrder(order, m.metadata.Keys) && DataLength(env, m) < UINT32
    requires DecodeData(env, Outgoing(env, m).0, PrintBody(BodyOf(env, m, order))) == Ok(Sent(env, m))
    ensures var r := TakeEntries(PrintEntries(EntriesOf(m.metadata, order)));
            r.Ok? && Collect(env.lower, r.value) == m.metadata
  {
    MetaLengthOf(m.metadata, order);
    PartsParse(m.name, m.rpc, PrintEntries(EntriesOf(m.metadata, order)), Outgoing(env, m).1);
  }

  /** A metadata block as large as the map read from it has no key with more values than a count byte can say. */
  lemma BlockWithin(lower: Lower, meta: bytes, md: MD)
    requires TakeEntries(meta).Ok? && Collect(lower, TakeEntries(meta).value) == md && |meta| == MetaSize(md)
    requires NoneShorter(lower, md)
    ensures ValuesWithin(md, 255)
  {
    var es := TakeEntries(meta).value;
    EntriesBackward(meta);
    EntriesLength(es);
    CollectSize(lower, es);
  }

  /** A frame sent uncompressed that is restored had a data length that fits: a cut one would be too short. */
  lemma RestoredIsWhole(env: Env, m: Msg, order: seq<bytes>)
    requires NoneShorter(env.lower, m.metadata) && IsOrder(order, m.metadata.Keys) && Raw(env, m)
    requires var data := PrintBody(BodyOf(env, m, order));
             var n := DataLength(env, m) % UINT32;
             n <= |data| && DecodeData(env, Outgoing(env, m).0, data[..n]) == Ok(Sent(env, m))
    ensures DataLength(env, m) < UINT32
  {
    var received := PrintBody(BodyOf(env, m, order))[..DataLength(env, m) % UINT32];
    CompressBit(env, m);
    PrintParsed(received);
    var (b, t) := ParseBody(received).value;
    BodyLength(b);
    CollectSize(env.lower, b.entries);
    assert Collect(env.lower, b.entries) == m.metadata && b.payload == m.payload;
  }

  /** What a successful decode of a sent frame forces. */
  lemma RestoredIsCarried(env: Env, m: Msg, order: seq<bytes>, rest: bytes, maxLength: int)
    requires Idempotent(env.lower) && IsOrder(order, m.metadata.Keys)
    requires Decidable(env, m)
    requires DecodeFrame(env, Frame(env, m, order) + rest, maxLength) == Decoded(Sent(env, m), rest)
    ensures Carries(env, m, maxLength)
  {
    ReceivedData(env, m, order, rest, maxLength);
    if DataLength(env, m) >= UINT32 { RestoredIsWhole(env, m, order); }
    SmallMod32(DataLength(env, m));
    var data := PrintBody(BodyOf(env, m, order));
    assert data[..|data|] == data;
    WholeIsCarried(env, m, order);
  }

  /** The frames whose fate Carries decides: those of less than 4 GiB with at most 255 values a key and, where no key
      is the lower case of a shorter name, all of less than 4 GiB and all sent uncompressed. */
  ghost predicate Decidable(env: Env, m: Msg) {
    || (DataLength(env, m) < UINT32 && ValuesWithin(m.metadata, 255))
    || (NoneShorter(env.lower, m.metadata) && (Raw(env, m) || DataLength(env, m) < UINT32))
  }

  /** The exact domain of the round trip: a frame is restored if and only if it is carried. */
  lemma RoundTripExactly(env: Env, m: Msg, order: seq<bytes>, rest: bytes, maxLength: int)
    requires LosslessEnv(env) && Idempotent(env.lower) && IsOrder(order, m.metadata.Keys) && Decidable(env, m)
    ensures DecodeFrame(env, Frame(env, m, order) + rest, maxLength) == Decoded(Sent(env, m), rest)
            <==> Carries(env, m, maxLength)
  {
    if Carries(env, m, maxLength) {
      RoundTrip(env, m, order, rest, maxLength);
    }
    if DecodeFrame(env, Frame(env, m, order) + rest, maxLength) == Decoded(Sent(env, m), rest) {
      RestoredIsCarried(env, m, order, rest, maxLength);
    }
  }

  /** A key with n values and nothing else to send. */
  function OneKey(k: bytes, n: nat): Msg {
    Msg(Fresh, [], [], map[k := seq(n, _ => [])], [])
  }

  /** The round trip fails for a key with 256 values, whose count byte reads 0, and for a key with none. */
  lemma NotRestored(lower: Lower, k: bytes, n: nat, rest: bytes, maxLength: int)
    requires Idempotent(lower) && (n == 0 || (n == 256 && forall x :: lower(x) == k ==> |k| <= |x|))
    ensures var env, m := Env(lower, map[]), OneKey(k, n);
            DecodeFrame(env, Frame(env, m, [k]) + rest, maxLength) != Decoded(Sent(env, m), rest)
  {
    var env, m := Env(lower, map[]), OneKey(k, n);
    assert |m.metadata[k]| == n;
    CompressBit(env, m);
    if n == 0 {
      EmptyKeyIsLost(env, m, [k], k, rest, maxLength);
    } else {
      RoundTripExactly(env, m, [k], rest, maxLength);
    }
  }

  /** No message with a key without values is restored. */
  lemma EmptyKeyIsLost(env: Env, m: Msg, order: seq<bytes>, k: bytes, rest: bytes, maxLength: int)
    requires Idempotent(env.lower) && IsOrder(order, m.metadata.Keys) && k in m.metadata && m.metadata[k] == []
    ensures DecodeFrame(env, Frame(env, m, order) + rest, maxLength) != Decoded(Sent(env, m), rest)
  {
    if DecodeFrame(env, Frame(env, m, order) + rest, maxLength) == Decoded(Sent(env, m), rest) {
      ReceivedData(env, m, order, rest, maxLength);
      var received := PrintBody(BodyOf(env, m, order))[..DataLength(env, m) % UINT32];
      DecodedKeys(env.lower, ParseBody(received).value.0.entries, m.metadata);
    }
  }

  // ---- streams of frames

  datatype Outbound = Outbound(msg: Msg, order: seq<bytes>)

  ghost predicate Sendable(env: Env, out: Outbound, maxLength: int) {
    IsOrder(out.order, out.msg.metadata.Keys) && Carries(env, out.msg, maxLength)
  }

  ghost predicate AllSendable(env: Env, outs: seq<Outbound>, maxLength: int) {
    forall i :: 0 <= i < |outs| ==> Sendable(env, outs[i], maxLength)
  }

  ghost function Stream(env: Env, outs: seq<Outbound>, maxLength: int): bytes
    requires AllSendable(env, outs, maxLength)
  {
    if outs == [] then [] else Frame(env, outs[0].msg, outs[0].order) + Stream(env, outs[1..], maxLength)
  }

  /** `n` successive Decode calls on one stream; None if one of them fails. */
  function DecodeMany(env: Env, s: bytes, n: nat, maxLength: int): Option<(seq<Msg>, bytes)> {
    if n == 0 then Some(([], s)) else
    match DecodeFrame(env, s, maxLength)
    case Failed(_, _) => Option.None
    case Decoded(m, s1) =>
      match DecodeMany(env, s1, n - 1, maxLength)
      case None => Option.None
      case Some((ms, s2)) => Some(([m] + ms, s2))
  }

  function SentAll(env: Env, outs: seq<Outbound>): seq<Msg> {
    if outs == [] then [] else [Sent(env, outs[0].msg)] + SentAll(env, outs[1..])
  }

  /** Frames delimit themselves: any list of carried messages, sent back to back and followed by anything,
      is read back as that list with what follows untouched. */
  lemma {:induction false} SelfDelimiting(env: Env, outs: seq<Outbound>, rest: bytes, maxLength: int)
    requires LosslessEnv(env) && AllSendable(env, outs, maxLength)
    ensures DecodeMany(env, Stream(env, outs, maxLength) + rest, |outs|, maxLength)
            == Some((SentAll(env, outs), rest))
  {
    if outs == [] {
      assert Stream(env, outs, maxLength) + rest == rest;
    } else {
      var f := Frame(env, outs[0].msg, outs[0].order);
      var tail := Stream(env, outs[1..], maxLength) + rest;
      Assoc(f, Stream(env, outs[1..], maxLength), rest);
      assert Sendable(env, outs[0], maxLength);
      RoundTrip(env, outs[0].msg, outs[0].order, tail, maxLength);
      SelfDelimiting(env, outs[1..], rest, maxLength);
    }
  }
}
