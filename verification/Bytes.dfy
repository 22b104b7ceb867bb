/** Byte strings and the little-endian integers of Go's encoding/binary. */
module Bytes {
  newtype byte = x: int | 0 <= x < 256
  type bytes = seq<byte>

  const UINT32 := 0x1_0000_0000
  const UINT64 := 0x1_0000_0000_0000_0000

  lemma Assoc<T>(a: seq<T>, b: seq<T>, c: seq<T>)
    ensures (a + b) + c == a + (b + c)
  {
  }

  function Pow256(w: nat): (p: nat)
    ensures p > 0
  {
    if w == 0 then 1 else 256 * Pow256(w - 1)
  }

  /** The low `w` bytes of `n`, least significant first; higher bytes are cut off, as a Go conversion does. */
  function PutLE(n: nat, w: nat): (s: bytes)
    ensures |s| == w
  {
    if w == 0 then [] else [(n % 256) as byte] + PutLE(n / 256, w - 1)
  }

  function GetLE(s: bytes): nat {
    if s == [] then 0 else s[0] as nat + 256 * GetLE(s[1..])
  }

  lemma ModSplit(n: nat, p: nat)
    requires p > 0
    ensures n % (256 * p) == n % 256 + 256 * ((n / 256) % p)
  {
    var q, r := n / 256, n % 256;
    var a, b := q / p, q % p;
    assert n == 256 * q + r && q == p * a + b;
    assert n == (256 * p) * a + (256 * b + r) by {
      assert 256 * (p * a) == (256 * p) * a;
    }
    DivModUnique(n, 256 * p, a, 256 * b + r);
  }

  lemma DivModUnique(n: int, d: int, q: int, r: int)
    requires 0 <= r < d && n == d * q + r
    ensures n / d == q && n % d == r
  {
    var k := q - n / d;
    assert d * k == n % d - r by {
      assert n == d * (n / d) + n % d;
      assert d * (n / d + k) == d * (n / d) + d * k;
    }
    if k >= 1 {
      MulMono(d, k);
    } else if k <= -1 {
      MulMono(d, -k);
    }
  }

  lemma MulMono(d: int, k: int)
    requires d > 0 && k >= 1
    ensures d * k >= d
  {
  }

  lemma ByteOfNat(n: nat)
    requires n < 256
    ensures (n as byte) as nat == n
  {
  }

  lemma NatOfByte(b: byte)
    ensures b as nat < 256 && (b as nat) as byte == b
  {
  }

  lemma {:induction false} GetPut(n: nat, w: nat)
    ensures GetLE(PutLE(n, w)) == n % Pow256(w)
  {
    if w > 0 {
      var s := PutLE(n, w);
      assert s[1..] == PutLE(n / 256, w - 1);
      assert s[0] as nat == n % 256 by { ByteOfNat(n % 256); }
      GetPut(n / 256, w - 1);
      ModSplit(n, Pow256(w - 1));
    }
  }

  lemma {:induction false} PutGet(s: bytes)
    ensures PutLE(GetLE(s), |s|) == s
    ensures GetLE(s) < Pow256(|s|)
  {
    if s != [] {
      PutGet(s[1..]);
      DivModUnique(GetLE(s), 256, GetLE(s[1..]), s[0] as nat);
      assert s == [s[0]] + s[1..];
    }
  }

  lemma Width4And8()
    ensures Pow256(4) == UINT32 && Pow256(8) == UINT64
  {
    assert Pow256(2) == 65536;
    assert Pow256(4) == UINT32;
    assert Pow256(6) == UINT32 * 65536;
  }

  /** uint32 written by PutUint32 and read by Uint32. */
  lemma GetPut32(n: nat)
    ensures GetLE(PutLE(n, 4)) == n % UINT32
  {
    GetPut(n, 4);
    Width4And8();
  }

  lemma PutGet32(s: bytes)
    requires |s| == 4
    ensures PutLE(GetLE(s), 4) == s && GetLE(s) < UINT32
  {
    PutGet(s);
    Width4And8();
  }

  lemma NextBits(x: bv8)
    requires x != 255
    ensures (x + 1) as int == x as int + 1
  {
  }

  lemma BitsOfBits(x: bv8)
    ensures (x as int) as bv8 == x
  {
  }

  /** Every number below 256 is reached by counting up in bits. */
  lemma {:induction false} CountBits(n: nat) returns (x: bv8)
    requires n < 256
    ensures x as int == n
  {
    if n == 0 {
      x := 0;
    } else {
      var y := CountBits(n - 1);
      assert y != 255;
      NextBits(y);
      x := y + 1;
    }
  }

  lemma ByteOfBits(b: byte)
    ensures (b as bv8) as byte == b
  {
    var x := CountBits(b as nat);
    BitsOfBits(x);
  }
}
