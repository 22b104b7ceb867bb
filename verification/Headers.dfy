/** The 11-byte message header (protocol/message.go): magic, version, one byte of flags, sequence number. */
module Headers {
  import opened Bytes

  const MAGIC: byte := 0x26
  const HEADER_LEN := 11

  type Header = h: bytes | |h| == HEADER_LEN witness seq(11, _ => 0)

  const NoCompression: byte := 0
  const Gzip: byte := 1

  /** NewMessage's header. */
  const Fresh: Header := [MAGIC, 0, 0, 0, 0, 0, 0, 0, 0, 0, 0]

  predicate CheckMagicNumber(h: Header) { h[0] == MAGIC }

  function SetVersion(h: Header, v: byte): Header { h[1 := v] }
  function Version(h: Header): byte { h[1] }

  // The third byte is bit-packed; `bv8` gives Go's byte operators.
  function Flags(h: Header): bv8 { h[2] as bv8 }
  function WithFlags(h: Header, f: bv8): Header { h[2 := f as byte] }

  function SetMessageType(h: Header, mt: bv8): Header { WithFlags(h, (Flags(h) & !0x80) | (mt << 7)) }
  function GetMessageType(h: Header): bv8 { (Flags(h) & 0x80) >> 7 }

  function SetMessageStatusType(h: Header, mst: bv8): Header { WithFlags(h, (Flags(h) & !0x40) | (mst << 6)) }
  function GetMessageStatusType(h: Header): bv8 { (Flags(h) & 0x40) >> 6 }

  function SetHeartBeat(h: Header, hb: bool): Header {
    WithFlags(h, if hb then Flags(h) | 0x20 else Flags(h) & !0x20)
  }
  predicate IsHeartBeat(h: Header) { Flags(h) & 0x20 == 0x20 }

  function SetCompressType(h: Header, ct: byte): Header { WithFlags(h, (Flags(h) & !0x10) | ((ct as bv8) << 4)) }
  function GetCompressType(h: Header): byte { ((Flags(h) & 0x10) >> 4) as byte }

  function SetSeq(h: Header, seqNo: nat): Header { h[..3] + PutLE(seqNo, 8) }
  function GetSeq(h: Header): nat { GetLE(h[3..]) }

  /** Everything a header says, as the getters read it. */
  datatype View = View(magic: bool, version: byte, messageType: bv8, status: bv8,
                       heartBeat: bool, compress: byte, seqNo: nat)

  function ViewOf(h: Header): View {
    View(CheckMagicNumber(h), Version(h), GetMessageType(h), GetMessageStatusType(h),
         IsHeartBeat(h), GetCompressType(h), GetSeq(h))
  }

  /** Each setter changes its own field and no other. */
  lemma VersionIndependent(h: Header, b: byte)
    ensures ViewOf(SetVersion(h, b)) == ViewOf(h).(version := b)
  {
    assert SetVersion(h, b)[3..] == h[3..];
  }

  lemma MessageTypeIndependent(h: Header, b: bv8)
    ensures ViewOf(SetMessageType(h, b)) == ViewOf(h).(messageType := b & 1)
  {
    FlagsWith(h, (Flags(h) & !0x80) | (b << 7));
    TypeBits(Flags(h), b);
  }

  lemma HeartBeatIndependent(h: Header, hb: bool)
    ensures ViewOf(SetHeartBeat(h, hb)) == ViewOf(h).(heartBeat := hb)
  {
    FlagsWith(h, if hb then Flags(h) | 0x20 else Flags(h) & !0x20);
    BeatBits(Flags(h));
  }

  /** The two setters whose shifted argument can spill into higher bits do so exactly for arguments that are
      not one bit wide. */
  lemma StatusIndependent(h: Header, b: bv8)
    ensures ViewOf(SetMessageStatusType(h, b)) == ViewOf(h).(status := b) <==> b < 2
  {
    FlagsWith(h, (Flags(h) & !0x40) | (b << 6));
    StatusBits(Flags(h), b);
  }

  lemma CompressIndependent(h: Header, ct: byte)
    ensures ViewOf(SetCompressType(h, ct)) == ViewOf(h).(compress := ct) <==> ct < 2
  {
    CompressRead(h, ct);
    if ct < 2 { CompressOthers(h, ct); }
  }

  lemma CompressRead(h: Header, ct: byte)
    ensures GetCompressType(SetCompressType(h, ct)) == ct <==> ct < 2
  {
    var b := ct as bv8;
    FlagsWith(h, (Flags(h) & !0x10) | (b << 4));
    CompressBits(Flags(h), b);
    SmallTag(ct);
  }

  lemma CompressOthers(h: Header, ct: byte)
    requires ct < 2
    ensures ViewOf(SetCompressType(h, ct)) == ViewOf(h).(compress := GetCompressType(SetCompressType(h, ct)))
  {
    var b := ct as bv8;
    FlagsWith(h, (Flags(h) & !0x10) | (b << 4));
    CompressBits(Flags(h), b);
    SmallTag(ct);
  }

  lemma FlagsWith(h: Header, f: bv8)
    ensures Flags(WithFlags(h, f)) == f && WithFlags(h, f)[3..] == h[3..]
  {
  }

  lemma SmallTag(ct: byte)
    ensures (ct as bv8) & 1 == ct as bv8 <==> ct < 2
    ensures ct as bv8 < 2 <==> ct < 2
    ensures ((ct as bv8) & 1) as byte == ct <==> ct < 2
  {
  }

  lemma TypeBits(x: bv8, b: bv8)
    ensures var y := (x & !0x80) | (b << 7);
            (y & 0x80) >> 7 == b & 1 && y & 0x40 == x & 0x40 && y & 0x20 == x & 0x20 && y & 0x10 == x & 0x10
  {
  }

  lemma BeatBits(x: bv8)
    ensures var y := x | 0x20;
            y & 0x80 == x & 0x80 && y & 0x40 == x & 0x40 && y & 0x20 == 0x20 && y & 0x10 == x & 0x10
    ensures var y := x & !0x20;
            y & 0x80 == x & 0x80 && y & 0x40 == x & 0x40 && y & 0x20 == 0 && y & 0x10 == x & 0x10
  {
  }

  lemma StatusBits(x: bv8, b: bv8)
    ensures var y := (x & !0x40) | (b << 6);
            (y & 0x40) >> 6 == b & 1 && y & 0x20 == x & 0x20 && y & 0x10 == x & 0x10
            && (b < 2 ==> y & 0x80 == x & 0x80)
    ensures b & 1 == b <==> b < 2
  {
  }

  lemma CompressBits(x: bv8, b: bv8)
    ensures var y := (x & !0x10) | (b << 4);
            (y & 0x10) >> 4 == b & 1
            && (b < 2 ==> y & 0x80 == x & 0x80 && y & 0x40 == x & 0x40 && y & 0x20 == x & 0x20)
  {
  }

  lemma SeqRoundTrip(h: Header, seqNo: nat)
    ensures ViewOf(SetSeq(h, seqNo)) == ViewOf(h).(seqNo := seqNo % UINT64)
  {
    assert SetSeq(h, seqNo)[3..] == PutLE(seqNo, 8);
    GetPut(seqNo, 8);
    Width4And8();
  }

  /** The header is determined by what the getters read and the four unused flag bits. */
  lemma ViewDetermines(g: Header, h: Header)
    requires ViewOf(g) == ViewOf(h) && g[0] == h[0] && Flags(g) & 0x0F == Flags(h) & 0x0F
    ensures g == h
  {
    PutGet(g[3..]);
    PutGet(h[3..]);
    assert g == [g[0], g[1], g[2]] + g[3..];
    assert h == [h[0], h[1], h[2]] + h[3..];
    FlagBits(Flags(g), Flags(h));
    ByteOfBits(g[2]);
    ByteOfBits(h[2]);
  }

  lemma FlagBits(x: bv8, y: bv8)
    requires (x & 0x80) >> 7 == (y & 0x80) >> 7 && (x & 0x40) >> 6 == (y & 0x40) >> 6
    requires (x & 0x20 == 0x20) == (y & 0x20 == 0x20) && (x & 0x10) >> 4 == (y & 0x10) >> 4
    requires x & 0x0F == y & 0x0F
    ensures x == y
  {
  }
}
