/** The grammar of a frame's data part, its printer and its parser (protocol/message.go).
    The parser is proved to be the exact inverse of the printer. */
module Wire {
  import opened Bytes
  import opened Results

  datatype Entry = Entry(key: bytes, values: seq<bytes>)

  datatype Body = Body(name: bytes, rpc: bytes, entries: seq<Entry>, payload: bytes)

  datatype Field = ServiceName | ServiceMethod | Metadata | Key | Value | Payload

  datatype DecodeError =
    | EOF
    | UnexpectedEOF
    | WrongMagic
    | TooLong
    | ShortLength(field: Field)
    | ShortData(field: Field)
    | ShortValueCount
    | UnsupportedCompressor
    | Corrupt

  // ---- printing

  function Str(s: bytes): bytes { PutLE(|s|, 4) + s }

  function PrintValues(vs: seq<bytes>): bytes {
    if vs == [] then [] else Str(vs[0]) + PrintValues(vs[1..])
  }

  /** The value count is one byte: a Go conversion cuts it off. */
  function CountByte(n: nat): byte { (n % 256) as byte }

  function PrintEntry(e: Entry): bytes {
    Str(e.key) + [CountByte(|e.values|)] + PrintValues(e.values)
  }

  function PrintEntries(es: seq<Entry>): bytes {
    if es == [] then [] else PrintEntry(es[0]) + PrintEntries(es[1..])
  }

  function PrintBody(b: Body): bytes {
    Str(b.name) + Str(b.rpc) + Str(PrintEntries(b.entries)) + Str(b.payload)
  }

  // ---- parsing

  /** A length-prefixed string at the front of `s`, and what follows it. */
  function TakeStr(s: bytes, f: Field): (r: Result<(bytes, bytes), DecodeError>)
    ensures r.Ok? ==> |r.value.1| + 4 + |r.value.0| == |s|
  {
    if |s| < 4 then Err(ShortLength(f)) else
    var n := GetLE(s[..4]);
    if 4 + n > |s| then Err(ShortData(f)) else Ok((s[4..4 + n], s[4 + n..]))
  }

  function TakeValues(s: bytes, n: nat): (r: Result<(seq<bytes>, bytes), DecodeError>)
    ensures r.Ok? ==> |r.value.1| <= |s| && |r.value.0| == n
    decreases n
  {
    if n == 0 then Ok(([], s)) else
    match TakeStr(s, Value)
    case Err(e) => Err(e)
    case Ok((v, s1)) =>
      match TakeValues(s1, n - 1)
      case Err(e) => Err(e)
      case Ok((vs, s2)) => Ok(([v] + vs, s2))
  }

  function TakeEntry(s: bytes): (r: Result<(Entry, bytes), DecodeError>)
    ensures r.Ok? ==> |r.value.1| < |s|
  {
    match TakeStr(s, Key)
    case Err(e) => Err(e)
    case Ok((key, s1)) =>
      if s1 == [] then Err(ShortValueCount) else
      match TakeValues(s1[1..], s1[0] as nat)
      case Err(e) => Err(e)
      case Ok((vs, s2)) => Ok((Entry(key, vs), s2))
  }

  function TakeEntries(s: bytes): Result<seq<Entry>, DecodeError>
    decreases |s|
  {
    if s == [] then Ok([]) else
    match TakeEntry(s)
    case Err(e) => Err(e)
    case Ok((e, s1)) =>
      match TakeEntries(s1)
      case Err(x) => Err(x)
      case Ok(es) => Ok([e] + es)
  }

  /** Metadata and payload. */
  function ParseTail(s: bytes): Result<(seq<Entry>, bytes, bytes), DecodeError> {
    match TakeStr(s, Metadata)
    case Err(e) => Err(e)
    case Ok((meta, s1)) =>
      match TakeEntries(meta)
      case Err(e) => Err(e)
      case Ok(entries) =>
        match TakeStr(s1, Payload)
        case Err(e) => Err(e)
        case Ok((payload, s2)) => Ok((entries, payload, s2))
  }

  /** The body and the bytes after it, which the decoder ignores. */
  function ParseBody(s: bytes): Result<(Body, bytes), DecodeError> {
    match TakeStr(s, ServiceName)
    case Err(e) => Err(e)
    case Ok((name, s1)) =>
      match TakeStr(s1, ServiceMethod)
      case Err(e) => Err(e)
      case Ok((rpc, s2)) =>
        match ParseTail(s2)
        case Err(e) => Err(e)
        case Ok((entries, payload, s3)) => Ok((Body(name, rpc, entries, payload), s3))
  }

  // ---- sizes

  function ValuesSize(vs: seq<bytes>): nat {
    if vs == [] then 0 else 4 + |vs[0]| + ValuesSize(vs[1..])
  }

  function EntrySize(key: bytes, vs: seq<bytes>): nat { 4 + |key| + 1 + ValuesSize(vs) }

  function EntriesSize(es: seq<Entry>): nat {
    if es == [] then 0 else EntrySize(es[0].key, es[0].values) + EntriesSize(es[1..])
  }

  function BodySize(b: Body): nat {
    (4 + |b.name|) + (4 + |b.rpc|) + (4 + EntriesSize(b.entries)) + (4 + |b.payload|)
  }

  lemma {:induction false} ValuesLength(vs: seq<bytes>)
    ensures |PrintValues(vs)| == ValuesSize(vs)
  {
    if vs != [] { ValuesLength(vs[1..]); }
  }

  lemma {:induction false} EntriesLength(es: seq<Entry>)
    ensures |PrintEntries(es)| == EntriesSize(es)
  {
    if es != [] {
      ValuesLength(es[0].values);
      EntriesLength(es[1..]);
    }
  }

  lemma BodyLength(b: Body)
    ensures |PrintBody(b)| == BodySize(b)
  {
    EntriesLength(b.entries);
  }

  // ---- the parser inverts the printer

  /** What the wire format can carry: lengths of four bytes, counts of one. */
  predicate Carried(b: Body) {
    && |b.name| < UINT32 && |b.rpc| < UINT32 && |b.payload| < UINT32
    && EntriesSize(b.entries) < UINT32
    && CountsFit(b.entries)
  }

  predicate CountsFit(es: seq<Entry>) {
    forall i :: 0 <= i < |es| ==> |es[i].values| < 256
  }

  lemma TakeStrOfStr(v: bytes, t: bytes, f: Field)
    requires |v| < UINT32
    ensures TakeStr(Str(v) + t, f) == Ok((v, t))
  {
    var s := Str(v) + t;
    assert s[..4] == PutLE(|v|, 4);
    GetPut32(|v|);
    assert s[4..4 + |v|] == v && s[4 + |v|..] == t;
  }

  lemma StrOfTakeStr(s: bytes, f: Field)
    requires TakeStr(s, f).Ok?
    ensures var (v, t) := TakeStr(s, f).value; s == Str(v) + t && |v| < UINT32
  {
    var (v, t) := TakeStr(s, f).value;
    PutGet32(s[..4]);
    assert s == s[..4] + s[4..4 + |v|] + s[4 + |v|..];
  }

  lemma {:induction false} ValuesForward(vs: seq<bytes>, t: bytes)
    requires ValuesSize(vs) < UINT32
    ensures TakeValues(PrintValues(vs) + t, |vs|) == Ok((vs, t))
  {
    if vs == [] {
      assert PrintValues(vs) + t == t;
    } else {
      var s := PrintValues(vs[1..]) + t;
      assert PrintValues(vs) + t == Str(vs[0]) + s;
      TakeStrOfStr(vs[0], s, Value);
      ValuesForward(vs[1..], t);
      assert vs == [vs[0]] + vs[1..];
    }
  }

  lemma {:induction false} ValuesBackward(s: bytes, n: nat)
    requires TakeValues(s, n).Ok?
    ensures var (vs, t) := TakeValues(s, n).value; s == PrintValues(vs) + t
    decreases n
  {
    if n > 0 {
      StrOfTakeStr(s, Value);
      var (v, s1) := TakeStr(s, Value).value;
      ValuesBackward(s1, n - 1);
      var (vs, t) := TakeValues(s1, n - 1).value;
      assert ([v] + vs)[1..] == vs;
    }
  }

  lemma EntryForward(e: Entry, t: bytes)
    requires EntrySize(e.key, e.values) < UINT32 && |e.values| < 256
    ensures TakeEntry(PrintEntry(e) + t) == Ok((e, t))
  {
    var s2 := PrintValues(e.values) + t;
    var s1 := [CountByte(|e.values|)] + s2;
    Regroup(Str(e.key), [CountByte(|e.values|)], PrintValues(e.values), t);
    TakeStrOfStr(e.key, s1, Key);
    SmallMod(|e.values|);
    assert s1[0] as nat == |e.values| && s1[1..] == s2;
    ValuesForward(e.values, t);
  }

  lemma EntryBackward(s: bytes)
    requires TakeEntry(s).Ok?
    ensures var (e, t) := TakeEntry(s).value; s == PrintEntry(e) + t && |e.values| < 256
  {
    StrOfTakeStr(s, Key);
    var (key, s1) := TakeStr(s, Key).value;
    ValuesBackward(s1[1..], s1[0] as nat);
    var (vs, t) := TakeValues(s1[1..], s1[0] as nat).value;
    CountOfByte(s1[0]);
    EntryJoin(Str(key), s1, PrintValues(vs), t);
  }

  lemma EntryJoin(a: bytes, s1: bytes, p: bytes, t: bytes)
    requires s1 != [] && s1[1..] == p + t
    ensures a + s1 == a + [s1[0]] + p + t
  {
    assert s1 == [s1[0]] + s1[1..];
    Regroup(a, [s1[0]], p, t);
  }

  lemma CountOfByte(b: byte)
    ensures b as nat < 256 && CountByte(b as nat) == b
  {
    NatOfByte(b);
    SmallMod(b as nat);
  }

  lemma SmallMod(n: nat)
    requires n < 256
    ensures n % 256 == n
  {
  }

  lemma Regroup(a: bytes, b: bytes, c: bytes, t: bytes)
    ensures a + (b + (c + t)) == a + b + c + t
  {
  }

  lemma {:induction false} EntriesForward(es: seq<Entry>)
    requires EntriesSize(es) < UINT32 && CountsFit(es)
    ensures TakeEntries(PrintEntries(es)) == Ok(es)
  {
    if es != [] {
      EntryForward(es[0], PrintEntries(es[1..]));
      EntriesForward(es[1..]);
      assert es == [es[0]] + es[1..];
    }
  }

  lemma {:induction false} EntriesBackward(s: bytes)
    requires TakeEntries(s).Ok?
    ensures PrintEntries(TakeEntries(s).value) == s && CountsFit(TakeEntries(s).value)
    decreases |s|
  {
    if s != [] {
      EntryBackward(s);
      var (e, s1) := TakeEntry(s).value;
      EntriesBackward(s1);
      var es := TakeEntries(s1).value;
      assert ([e] + es)[1..] == es;
    }
  }

  /** Completeness: every carried body is read back, whatever follows it. */
  lemma ParsePrinted(b: Body, t: bytes)
    requires Carried(b)
    ensures ParseBody(PrintBody(b) + t) == Ok((b, t))
  {
    var meta := PrintEntries(b.entries);
    EntriesLength(b.entries);
    var s3 := Str(b.payload) + t;
    var s2 := Str(meta) + s3;
    var s1 := Str(b.rpc) + s2;
    assert PrintBody(b) + t == Str(b.name) + s1;
    TakeStrOfStr(b.name, s1, ServiceName);
    TakeStrOfStr(b.rpc, s2, ServiceMethod);
    TakeStrOfStr(meta, s3, Metadata);
    EntriesForward(b.entries);
    TakeStrOfStr(b.payload, t, Payload);
  }

  /** Four strings that fit their lengths are taken apart again, whatever the third one holds. */
  lemma PartsParse(name: bytes, rpc: bytes, meta: bytes, payload: bytes)
    requires |name| < UINT32 && |rpc| < UINT32 && |meta| < UINT32 && |payload| < UINT32
    ensures var s := Str(name) + Str(rpc) + Str(meta) + Str(payload);
            match TakeEntries(meta)
            case Err(e) => ParseBody(s) == Err(e)
            case Ok(es) => ParseBody(s) == Ok((Body(name, rpc, es, payload), []))
  {
    var s3 := Str(payload);
    var s2 := Str(meta) + s3;
    var s1 := Str(rpc) + s2;
    Regroup(Str(name), Str(rpc), Str(meta), s3);
    assert s3 + [] == s3;
    TakeStrOfStr(name, s1, ServiceName);
    TakeStrOfStr(rpc, s2, ServiceMethod);
    TakeStrOfStr(meta, s3, Metadata);
    TakeStrOfStr(payload, [], Payload);
  }

  /** Soundness: what the parser accepts is a printed body and a tail. */
  lemma PrintParsed(s: bytes)
    requires ParseBody(s).Ok?
    ensures var (b, t) := ParseBody(s).value; s == PrintBody(b) + t && Carried(b)
  {
    StrOfTakeStr(s, ServiceName);
    var (name, s1) := TakeStr(s, ServiceName).value;
    StrOfTakeStr(s1, ServiceMethod);
    var (rpc, s2) := TakeStr(s1, ServiceMethod).value;
    StrOfTakeStr(s2, Metadata);
    var (meta, s3) := TakeStr(s2, Metadata).value;
    EntriesBackward(meta);
    var entries := TakeEntries(meta).value;
    EntriesLength(entries);
    StrOfTakeStr(s3, Payload);
    var (payload, t) := TakeStr(s3, Payload).value;
    Regroup(Str(name), Str(rpc), Str(meta), Str(payload) + t);
    assert s == (Str(name) + Str(rpc) + Str(meta) + Str(payload)) + t;
  }

  /** The parser accepts exactly the printed bodies. */
  lemma ParserIsExact(s: bytes, b: Body, t: bytes)
    ensures ParseBody(s) == Ok((b, t)) <==> Carried(b) && s == PrintBody(b) + t
  {
    if ParseBody(s) == Ok((b, t)) { PrintParsed(s); }
    if Carried(b) && s == PrintBody(b) + t { ParsePrinted(b, t); }
  }
}
