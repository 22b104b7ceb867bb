/** The zrpc-timeout header (protocol/timeout.go): at most eight digits and a unit, rounded up. */
module Timeout {
  import opened Results

  const MAX_INT64 := 0x7FFF_FFFF_FFFF_FFFF
  const MAX_UINT64 := 0xFFFF_FFFF_FFFF_FFFF
  const MAX_VALUE := 100_000_000 - 1
  const MAX_HOURS := MAX_INT64 / 3_600_000_000_000

  /** Durations are int64 nanoseconds. */
  type Duration = d: int | -MAX_INT64 - 1 <= d <= MAX_INT64

  datatype Unit = Hour | Minute | Second | Millisecond | Microsecond | Nanosecond

  function Nanos(u: Unit): nat {
    match u
    case Hour => 3_600_000_000_000
    case Minute => 60_000_000_000
    case Second => 1_000_000_000
    case Millisecond => 1_000_000
    case Microsecond => 1_000
    case Nanosecond => 1
  }

  function Letter(u: Unit): char {
    match u
    case Hour => 'H'
    case Minute => 'M'
    case Second => 'S'
    case Millisecond => 'm'
    case Microsecond => 'u'
    case Nanosecond => 'n'
  }

  /** timeoutUnitToDuration */
  function UnitOf(c: char): Option<Unit> {
    match c
    case 'H' => Some(Hour)
    case 'M' => Some(Minute)
    case 'S' => Some(Second)
    case 'm' => Some(Millisecond)
    case 'u' => Some(Microsecond)
    case 'n' => Some(Nanosecond)
    case _ => None
  }

  // ---- decimal numbers

  /** strconv.FormatInt(n, 10) for n >= 0 */
  function FormatInt(n: nat): (s: string)
    ensures s != []
  {
    if n < 10 then [Digit(n)] else FormatInt(n / 10) + [Digit(n % 10)]
  }

  function Digit(n: nat): char
    requires n < 10
  {
    '0' + n as char
  }

  /** The value of a digit string, or None if some character is not a digit. */
  function Digits(s: string): Option<nat> {
    if s == [] then Some(0) else
    var c := s[|s| - 1];
    match Digits(s[..|s| - 1])
    case None => None
    case Some(n) => if '0' <= c <= '9' then Some(10 * n + (c - '0') as nat) else None
  }

  /** strconv.ParseUint(s, 10, 64) */
  function ParseUint(s: string): Option<nat> {
    if s == [] then None else
    match Digits(s)
    case None => None
    case Some(n) => if n > MAX_UINT64 then None else Some(n)
  }

  // ---- the codec

  /** Go's rounded-up division, on the non-negative durations it is called with. */
  function Div(d: nat, r: nat): nat
    requires r > 0
  {
    if d % r > 0 then d / r + 1 else d / r
  }

  /** The first unit, from the finest, in which the rounded-up value has at most eight digits; hours if none. */
  function UnitFor(t: nat): Unit {
    if Div(t, Nanos(Nanosecond)) <= MAX_VALUE then Nanosecond
    else if Div(t, Nanos(Microsecond)) <= MAX_VALUE then Microsecond
    else if Div(t, Nanos(Millisecond)) <= MAX_VALUE then Millisecond
    else if Div(t, Nanos(Second)) <= MAX_VALUE then Second
    else if Div(t, Nanos(Minute)) <= MAX_VALUE then Minute
    else Hour
  }

  function EncodeTimeout(t: Duration): string {
    if t <= 0 then "0n" else
    var u := UnitFor(t);
    FormatInt(Div(t, Nanos(u))) + [Letter(u)]
  }

  datatype TimeoutError = TooShort | TooLong | UnknownUnit | BadNumber

  /** int64 multiplication, wrapping as Go's does. */
  function Wrap(x: int): Duration {
    var m := x % (MAX_UINT64 + 1);
    if m > MAX_INT64 then m - (MAX_UINT64 + 1) else m
  }

  function DecodeTimeout(s: string): Result<Duration, TimeoutError> {
    var size := |s|;
    if size < 2 then Err(TooShort)
    else if size > 9 then Err(TooLong)
    else match UnitOf(s[size - 1])
      case None => Err(UnknownUnit)
      case Some(u) =>
        match ParseUint(s[..size - 1])
        case None => Err(BadNumber)
        case Some(t) =>
          if u == Hour && t > MAX_HOURS then Ok(MAX_INT64)
          else Ok(Wrap(Nanos(u) * t))
  }

  // ---- numbers

  lemma {:induction false} FormatDigits(n: nat)
    ensures Digits(FormatInt(n)) == Some(n)
  {
    if n >= 10 {
      FormatDigits(n / 10);
      assert FormatInt(n)[..|FormatInt(n)| - 1] == FormatInt(n / 10);
    } else {
      assert FormatInt(n)[..0] == [];
    }
  }

  lemma {:induction false} FormatLength(n: nat, k: nat, bound: nat)
    requires k > 0 && bound == Pow10(k) && n < bound
    ensures |FormatInt(n)| <= k
    decreases k
  {
    if n >= 10 {
      FormatLength(n / 10, k - 1, Pow10(k - 1));
    }
  }

  function Pow10(k: nat): nat { if k == 0 then 1 else 10 * Pow10(k - 1) }

  lemma DivFacts(t: nat, r: nat)
    requires r > 0
    ensures t <= r * Div(t, r) < t + r
  {
    assert t == r * (t / r) + t % r;
    if t % r > 0 {
      assert r * (t / r + 1) == r * (t / r) + r;
    }
  }

  /** What a decoded encoding is: the duration rounded up to its unit. */
  function Rounded(t: Duration): int {
    if t <= 0 then 0 else
    var u := UnitFor(t);
    if u == Hour && Div(t, Nanos(u)) > MAX_HOURS then MAX_INT64 else Nanos(u) * Div(t, Nanos(u))
  }

  /** The value and unit stay inside eight digits, so no multiplication overflows but the clamped one. */
  lemma ValueFits(t: Duration)
    requires t > 0
    ensures var u := UnitFor(t);
            var v := Div(t, Nanos(u));
            1 <= v <= MAX_VALUE && ((u == Hour && v > MAX_HOURS) || Nanos(u) * v <= MAX_INT64)
  {
    var u := UnitFor(t);
    DivFacts(t, Nanos(u));
    if u == Hour {
      HourFits(t);
    } else {
      var v := Div(t, Nanos(u));
      assert Nanos(u) * v <= 60_000_000_000 * MAX_VALUE by { MulBound(Nanos(u), 60_000_000_000, v, MAX_VALUE); }
    }
  }

  lemma MulBound(a: nat, b: nat, x: nat, y: nat)
    requires a <= b && x <= y
    ensures a * x <= b * y
  {
    assert a * x <= b * x <= b * y;
  }

  lemma HourFits(t: Duration)
    requires t > 0
    ensures Div(t, Nanos(Hour)) <= MAX_HOURS + 1 <= MAX_VALUE
    ensures Div(t, Nanos(Hour)) <= MAX_HOURS ==> Nanos(Hour) * Div(t, Nanos(Hour)) <= MAX_INT64
  {
  }

  /** Reading back a printed value and unit. */
  lemma DecodePrinted(v: nat, u: Unit)
    requires v <= MAX_VALUE
    ensures var s := FormatInt(v) + [Letter(u)];
            && 2 <= |s| <= 9 && s[|s| - 1] == Letter(u)
            && UnitOf(s[|s| - 1]) == Some(u) && ParseUint(s[..|s| - 1]) == Some(v)
  {
    var s := FormatInt(v) + [Letter(u)];
    FormatDigits(v);
    assert Pow10(8) == 100_000_000 by { assert Pow10(4) == 10_000; }
    FormatLength(v, 8, Pow10(8));
    assert s[..|s| - 1] == FormatInt(v);
  }

  lemma WrapSmall(x: int)
    requires 0 <= x <= MAX_INT64
    ensures Wrap(x) == x
  {
  }

  lemma DecodeValue(v: nat, u: Unit, n: nat)
    requires v <= MAX_VALUE && n == Nanos(u) * v && ((u == Hour && v > MAX_HOURS) || n <= MAX_INT64)
    ensures DecodeTimeout(FormatInt(v) + [Letter(u)]) == Ok(if u == Hour && v > MAX_HOURS then MAX_INT64 else n)
  {
    DecodePrinted(v, u);
    if !(u == Hour && v > MAX_HOURS) { WrapSmall(n); }
  }

  lemma DecodePositive(t: Duration)
    requires t > 0
    ensures |EncodeTimeout(t)| <= 9
    ensures DecodeTimeout(EncodeTimeout(t)) == Ok(Rounded(t))
  {
    var u := UnitFor(t);
    var v := Div(t, Nanos(u));
    ValueFits(t);
    DecodePrinted(v, u);
    DecodeValue(v, u, Nanos(u) * v);
  }

  lemma DecodeEncode(t: Duration)
    ensures |EncodeTimeout(t)| <= 9
    ensures DecodeTimeout(EncodeTimeout(t)) == Ok(Rounded(t))
  {
    if t > 0 {
      DecodePositive(t);
    } else {
      DecodeValue(0, Nanosecond, 0);
      assert FormatInt(0) + [Letter(Nanosecond)] == "0n";
    }
  }

  /** Bound: every positive duration is decoded to one no shorter, and longer by less than one part in 99999. */
  lemma RoundedBound(t: Duration)
    requires t > 0
    ensures t <= Rounded(t) <= MAX_INT64
    ensures (Rounded(t) - t) * 99_999 < t
  {
    ValueFits(t);
    UnitError(t);
  }

  /** One unit is less than one part in 99999 of any duration that is not encoded in a finer one. */
  lemma UnitError(t: Duration)
    requires t > 0
    ensures var u := UnitFor(t);
            var r := Nanos(u) * Div(t, Nanos(u));
            t <= r && (r - t) * 99_999 < t
  {
    var u := UnitFor(t);
    DivFacts(t, Nanos(u));
    match u
    case Nanosecond =>
    case Microsecond =>
    case Millisecond => DivFacts(t, Nanos(Microsecond));
    case Second => DivFacts(t, Nanos(Millisecond));
    case Minute => DivFacts(t, Nanos(Second));
    case Hour => DivFacts(t, Nanos(Minute));
  }

  /** What the server's deadline is after the client's timeout has crossed the wire. */
  lemma TimeoutBound(t: Duration)
    requires t > 0
    ensures |EncodeTimeout(t)| <= 9
    ensures exists d: Duration :: DecodeTimeout(EncodeTimeout(t)) == Ok(d) && t <= d && (d - t) * 99_999 < t
  {
    DecodeEncode(t);
    RoundedBound(t);
    assert DecodeTimeout(EncodeTimeout(t)) == Ok(Rounded(t) as Duration);
  }

  // ---- canonicity

  lemma DivMonotone(s: nat, t: nat, r: nat)
    requires s <= t && r > 0
    ensures Div(s, r) <= Div(t, r)
  {
    DivFacts(s, r);
    DivFacts(t, r);
    Cancel(r, Div(s, r), Div(t, r));
  }

  lemma DivOfMultiple(v: nat, r: nat)
    requires r > 0
    ensures Div(r * v, r) == v
  {
    DivFacts(r * v, r);
    Cancel(r, Div(r * v, r), v);
    Cancel(r, v, Div(r * v, r));
  }

  lemma Cancel(r: nat, a: nat, b: nat)
    requires r > 0 && r * a < r * b + r
    ensures a <= b
  {
    if a > b { MulBound(r, r, b + 1, a); }
  }

  /** From finest to coarsest. */
  function Rank(u: Unit): nat {
    match u
    case Nanosecond => 0
    case Microsecond => 1
    case Millisecond => 2
    case Second => 3
    case Minute => 4
    case Hour => 5
  }

  /** A unit finer than the chosen one was rejected; the chosen one, if not hours, was not. */
  lemma Rejected(t: nat, u: Unit)
    ensures Rank(u) < Rank(UnitFor(t)) ==> Div(t, Nanos(u)) > MAX_VALUE
    ensures u == UnitFor(t) && u != Hour ==> Div(t, Nanos(u)) <= MAX_VALUE
  {
  }

  lemma UnitMonotone(s: nat, t: nat)
    requires s <= t
    ensures Rank(UnitFor(s)) <= Rank(UnitFor(t))
  {
    var u := UnitFor(t);
    if u != Hour {
      DivMonotone(s, t, Nanos(u));
      Rejected(t, u);
      Rejected(s, u);
    }
  }

  /** A longer timeout is never decoded to a shorter one, across all changes of unit. */
  lemma RoundedMonotone(s: Duration, t: Duration)
    requires s <= t
    ensures Rounded(s) <= Rounded(t)
  {
    if t > 0 { RoundedBound(t); }
    if s > 0 {
      var u := UnitFor(s);
      UnitMonotone(s, t);
      if u == UnitFor(t) {
        DivMonotone(s, t, Nanos(u));
        MulBound(Nanos(u), Nanos(u), Div(s, Nanos(u)), Div(t, Nanos(u)));
        ValueFits(s);
        ValueFits(t);
      } else {
        Rejected(s, u);
        Rejected(t, u);
        DivFacts(t, Nanos(u));
        assert t > Nanos(u) * MAX_VALUE by {
          MulBound(Nanos(u), Nanos(u), MAX_VALUE + 1, Div(t, Nanos(u)));
        }
        MulBound(Nanos(u), Nanos(u), Div(s, Nanos(u)), MAX_VALUE);
      }
    }
  }

  /** Encoding the decoded timeout gives the same string: a timeout relayed from server to server is not
      lengthened a second time. */
  lemma Canonical(t: Duration)
    ensures 0 <= Rounded(t) <= MAX_INT64 && EncodeTimeout(Rounded(t)) == EncodeTimeout(t)
  {
    if t > 0 {
      RoundedBound(t);
      ValueFits(t);
      var u, r := UnitFor(t), Rounded(t);
      var v := Div(t, Nanos(u));
      UnitMonotone(t, r);
      if u == Hour {
        if v > MAX_HOURS {
          HourFits(t);
          assert Div(MAX_INT64, Nanos(Hour)) == MAX_HOURS + 1;
        } else {
          DivOfMultiple(v, Nanos(u));
        }
      } else {
        DivOfMultiple(v, Nanos(u));
        Rejected(r, u);
        assert UnitFor(r) == u;
      }
    }
  }

  /** Monotone and idempotent on strings: what two servers read is ordered as the durations were. */
  lemma TimeoutCanonicity(s: Duration, t: Duration)
    requires s <= t
    ensures exists d: Duration, e: Duration ::
      && DecodeTimeout(EncodeTimeout(s)) == Ok(d) && DecodeTimeout(EncodeTimeout(t)) == Ok(e) && d <= e
      && EncodeTimeout(d) == EncodeTimeout(s) && EncodeTimeout(e) == EncodeTimeout(t)
  {
    DecodeEncode(s);
    DecodeEncode(t);
    RoundedMonotone(s, t);
    Canonical(s);
    Canonical(t);
  }

  // ---- every input of the decoder

  lemma {:induction false} DigitsBound(s: string, k: nat)
    requires |s| <= k && Digits(s).Some?
    ensures Digits(s).value < Pow10(k)
    decreases k
  {
    if s != [] {
      DigitsBound(s[..|s| - 1], k - 1);
    } else if k > 0 {
      DigitsBound(s, k - 1);
    }
  }

  predicate WellFormed(s: string) {
    2 <= |s| <= 9 && UnitOf(s[|s| - 1]).Some? && Digits(s[..|s| - 1]).Some?
  }

  /** The decoder accepts exactly one to eight digits and a unit, and gives their product, cut off at the
      largest duration: the hour clamp is the only place where the product could overflow. */
  lemma DecodeExactly(s: string)
    ensures DecodeTimeout(s).Ok? <==> WellFormed(s)
    ensures WellFormed(s) ==>
      var product := Nanos(UnitOf(s[|s| - 1]).value) * Digits(s[..|s| - 1]).value;
      DecodeTimeout(s) == Ok(if product > MAX_INT64 then MAX_INT64 else product)
  {
    if WellFormed(s) {
      var u, n := UnitOf(s[|s| - 1]).value, Digits(s[..|s| - 1]).value;
      DigitsBound(s[..|s| - 1], 8);
      assert Pow10(8) == 100_000_000 by { assert Pow10(4) == 10_000; }
      if u != Hour {
        MulBound(Nanos(u), 60_000_000_000, n, MAX_VALUE);
      }
    }
  }
}
