/** The NTP timestamp format of section 3 of RFC 2030 -- 32 bits of seconds
    followed by a 32-bit binary fraction of a second, carried in a signed
    64-bit integer -- and its conversion to and from an instant. Which
    136-year era a timestamp belongs to is decided by the top bit of its
    seconds field, as section 3 of RFC 4330 suggests: 0 means the era that
    starts 2036-02-07T06:28:16Z, 1 the era that starts 1900-01-01T00:00:00Z.

    Instants are whole milliseconds since 1900-01-01T00:00:00Z. */
module Timestamp {

  /** The C# Int64 that carries a timestamp. */
  type Int64 = x: int | -0x8000_0000_0000_0000 <= x < 0x8000_0000_0000_0000

  /** An instant, as milliseconds since 1900-01-01T00:00:00Z (UTC). */
  type Instant = int

  /** Origin of the base era, 1900-01-01T00:00:00Z. */
  const BaseTerm: Instant := 0

  /** Origin of the reverse era, 2036-02-07T06:28:16Z: exactly 2^32 seconds
      after BaseTerm, the instant at which the seconds field wraps. */
  const ReverseTerm: Instant := 4_294_967_296_000

  /** The instant of a proleptic Gregorian UTC date and time of day, the
      value `new DateTime(year, month, day, hour, minute, second, ms,
      DateTimeKind.Utc)` stands for. Days are counted by the usual
      civil-from-days arithmetic on 400-year cycles of 146097 days. */
  function Utc(year: int, month: int, day: int, hour: int, minute: int, second: int, ms: int): Instant
    requires 1 <= month <= 12
  {
    var y := if month <= 2 then year - 1 else year;
    var cycle := y / 400;
    var yearOfCycle := y - cycle * 400;
    var shiftedMonth := if month > 2 then month - 3 else month + 9;
    var dayOfYear := (153 * shiftedMonth + 2) / 5 + day - 1;
    var dayOfCycle := yearOfCycle * 365 + yearOfCycle / 4 - yearOfCycle / 100 + dayOfYear;
    var daysSince1900 := cycle * 146097 + dayOfCycle - 693901;
    ((daysSince1900 * 24 + hour) * 60 + minute) * 60_000 + second * 1000 + ms
  }

  /** The two origins are the dates the source declares. */
  lemma EraOrigins()
    ensures Utc(1900, 1, 1, 0, 0, 0, 0) == BaseTerm
    ensures Utc(2036, 2, 7, 6, 28, 16, 0) == ReverseTerm
  {
  }

  /** The 64 bits of `t` read as an unsigned number. */
  function Unsigned(t: Int64): (u: nat)
    ensures u < 0x1_0000_0000_0000_0000
    ensures u % 0x1_0000_0000_0000_0000 == t % 0x1_0000_0000_0000_0000
  {
    if t < 0 then t + 0x1_0000_0000_0000_0000 else t
  }

  /** The seconds field: `(UInt32)(timestamp >> 32)`. The shift of an Int64
      is arithmetic (it divides by 2^32 rounding down, which is what `/`
      does for a positive divisor) and the cast keeps the low 32 bits. */
  function Seconds(t: Int64): (s: nat)
    ensures s < 0x1_0000_0000
  {
    (t / 0x1_0000_0000) % 0x1_0000_0000
  }

  /** The fraction field: `timestamp & UInt32.MaxValue`, the low 32 bits. */
  function Fraction(t: Int64): (f: nat)
    ensures f < 0x1_0000_0000
  {
    t % 0x1_0000_0000
  }

  /** Whatever the sign of the Int64, the seconds field is the high half and
      the fraction field the low half of its unsigned reading. */
  lemma SplitHalves(t: Int64)
    ensures Unsigned(t) == Seconds(t) * 0x1_0000_0000 + Fraction(t)
  {
    var q := t / 0x1_0000_0000;
    assert t == q * 0x1_0000_0000 + Fraction(t);
    if t < 0 {
      assert -0x8000_0000 <= q < 0;
      assert Seconds(t) == q + 0x1_0000_0000;
    } else {
      assert 0 <= q < 0x8000_0000;
      assert Seconds(t) == q;
    }
  }

  /** `(Int64)(((UInt64)seconds << 32) | fraction)`: as the fraction is
      below 2^32 the OR is an addition, and the cast to Int64 reinterprets
      the 64 bits as two's complement. The fields read back unchanged. */
  function Pack(seconds: nat, fraction: nat): (t: Int64)
    requires seconds < 0x1_0000_0000 && fraction < 0x1_0000_0000
    ensures Seconds(t) == seconds && Fraction(t) == fraction
  {
    var u := seconds * 0x1_0000_0000 + fraction;
    var t: Int64 := if u < 0x8000_0000_0000_0000 then u else u - 0x1_0000_0000_0000_0000;
    SplitHalves(t);
    HalvesDetermined(Seconds(t), Fraction(t), seconds, fraction);
    t
  }

  /** A number below 2^64 has one pair of 32-bit halves. */
  lemma HalvesDetermined(s: nat, f: nat, s': nat, f': nat)
    requires s < 0x1_0000_0000 && f < 0x1_0000_0000 && s' < 0x1_0000_0000 && f' < 0x1_0000_0000
    requires s * 0x1_0000_0000 + f == s' * 0x1_0000_0000 + f'
    ensures s == s' && f == f'
  {
  }

  /** The era origin ToDateTime picks from the seconds field: the reverse era
      when its top bit (`seconds & 0x80000000`) is 0, the base era when 1. */
  function Origin(seconds: nat): (o: Instant)
    requires seconds < 0x1_0000_0000
    ensures o == BaseTerm || o == ReverseTerm
    ensures o == ReverseTerm <==> seconds < 0x8000_0000
  {
    if seconds < 0x8000_0000 then ReverseTerm else BaseTerm
  }

  /** The fraction field in milliseconds, `fraction * 1000 / 2^32`, rounded
      to the nearest whole millisecond (halves up) as
      `TimeSpan.FromMilliseconds` does on the .NET Framework. */
  function FractionToMilliseconds(fraction: nat): (ms: nat)
    requires fraction < 0x1_0000_0000
    ensures ms <= 1000
    ensures ms * 0x1_0000_0000 - 0x8000_0000 <= fraction * 1000 < ms * 0x1_0000_0000 + 0x8000_0000
  {
    (fraction * 1000 + 0x8000_0000) / 0x1_0000_0000
  }

  /** Timestamp.ToDateTime. The result lies in the era window the top bit
      selects, and it is the timestamp's exact value (seconds plus
      fraction / 2^32) after that origin, to the nearest millisecond. */
  function Decode(t: Int64): (r: Instant)
    ensures Seconds(t) < 0x8000_0000 ==> ReverseTerm <= r <= ReverseTerm + 2_147_483_648_000
    ensures Seconds(t) >= 0x8000_0000 ==> 2_147_483_648_000 <= r <= ReverseTerm
    ensures var exact := (Seconds(t) * 0x1_0000_0000 + Fraction(t)) * 1000;
            var r' := (r - Origin(Seconds(t))) * 0x1_0000_0000;
            r' - 0x8000_0000 <= exact < r' + 0x8000_0000
  {
    var seconds := Seconds(t);
    Origin(seconds) + seconds * 1000 + FractionToMilliseconds(Fraction(t))
  }

  /** The binary fraction of `ms` milliseconds (`ms < 1000`),
      `ms * 2^32 / 1000` truncated, as the cast to UInt64 does. */
  function MillisecondsToFraction(ms: nat): (fraction: nat)
    requires ms < 1000
    ensures fraction < 0x1_0000_0000
    ensures fraction * 1000 <= ms * 0x1_0000_0000 < fraction * 1000 + 1000
  {
    ms * 0x1_0000_0000 / 1000
  }

  /** Timestamp.ToTimestamp, for instants from 1900-01-01T00:00:00Z up to
      (not including) 2^33 seconds later, where the seconds still fit the
      UInt32 cast. Instants from ReverseTerm on are counted from ReverseTerm,
      earlier ones from BaseTerm; the seconds are truncated and the
      millisecond within the second becomes the truncated binary fraction. */
  function Encode(t: Instant): (r: Int64)
    requires BaseTerm <= t < 2 * ReverseTerm
    ensures t >= ReverseTerm ==> Seconds(r) == (t - ReverseTerm) / 1000
    ensures t < ReverseTerm ==> Seconds(r) == (t - BaseTerm) / 1000
    ensures Fraction(r) * 1000 <= (t % 1000) * 0x1_0000_0000 < Fraction(r) * 1000 + 1000
  {
    var origin := if ReverseTerm <= t then ReverseTerm else BaseTerm;
    var ticks := t - origin;
    assert 0 <= ticks < ReverseTerm;
    var seconds := ticks / 1000;
    assert seconds < 0x1_0000_0000;
    assert ticks % 1000 == t % 1000;
    var fraction := MillisecondsToFraction(ticks % 1000);
    Pack(seconds, fraction)
  }

  /** Rounding the truncated fraction of a millisecond count back to the
      nearest millisecond recovers the count. */
  lemma FractionRoundTrip(ms: nat)
    requires ms < 1000
    ensures FractionToMilliseconds(MillisecondsToFraction(ms)) == ms
  {
    var f := MillisecondsToFraction(ms);
    var back := FractionToMilliseconds(f);
    assert (back - ms) * 0x1_0000_0000 <= 0x8000_0000;
    assert (ms - back) * 0x1_0000_0000 < 0x8000_0000 + 1000;
  }

  /** Decoding an encoded instant gives it back exactly when the top bit of
      the encoded seconds agrees with the era Encode chose: from
      1968-01-20T03:14:08Z (2^31 seconds) up to 2104-02-26T09:42:24Z
      (3 * 2^31 seconds). Earlier instants come back one era (2^32 seconds)
      late and later ones one era early. */
  lemma RoundTrip(t: Instant)
    requires BaseTerm <= t < 2 * ReverseTerm
    ensures Decode(Encode(t)) == t + (if t < 2_147_483_648_000 then ReverseTerm
                                      else if t >= 6_442_450_944_000 then -ReverseTerm
                                      else 0)
    ensures Decode(Encode(t)) == t <==> 2_147_483_648_000 <= t < 6_442_450_944_000
  {
    var r := Encode(t);
    FractionRoundTrip(t % 1000);
    assert FractionToMilliseconds(Fraction(r)) == t % 1000;
    if t >= ReverseTerm {
      assert Seconds(r) * 1000 + t % 1000 == t - ReverseTerm;
    } else {
      assert Seconds(r) * 1000 + t % 1000 == t;
    }
  }

  /** ToDateTime(-0x100000000) is 2036-02-07T06:28:15Z: the seconds field is
      0xFFFFFFFF although the Int64 is negative, so the base era applies.
      ToDateTime(0) is 2036-02-07T06:28:16Z. */
  lemma DecodeTestVectors()
    ensures Seconds(-0x1_0000_0000) == 0xFFFF_FFFF && Fraction(-0x1_0000_0000) == 0
    ensures Decode(-0x1_0000_0000) == Utc(2036, 2, 7, 6, 28, 15, 0)
    ensures Decode(0) == Utc(2036, 2, 7, 6, 28, 16, 0)
  {
    EraOrigins();
    assert Utc(2036, 2, 7, 6, 28, 15, 0) == ReverseTerm - 1000;
    assert Unsigned(-0x1_0000_0000) == 0xFFFF_FFFF_0000_0000;
    assert Seconds(0) == 0 && Fraction(0) == 0;
  }

  /** ToTimestamp of 2036-02-07T06:28:15Z is -0x100000000
      (0xFFFFFFFF00000000); one second later it is 0. */
  lemma EncodeTestVectors()
    ensures Encode(Utc(2036, 2, 7, 6, 28, 15, 0)) == -0x1_0000_0000
    ensures Encode(Utc(2036, 2, 7, 6, 28, 16, 0)) == 0
  {
    assert Utc(2036, 2, 7, 6, 28, 15, 0) == ReverseTerm - 1000;
  }

  /** The instants the round trip is tested on come back to the millisecond. */
  lemma TestedRoundTrips()
    ensures Decode(Encode(Utc(1970, 1, 1, 0, 0, 0, 0))) == Utc(1970, 1, 1, 0, 0, 0, 0)
    ensures Decode(Encode(Utc(1999, 12, 31, 23, 59, 59, 999))) == Utc(1999, 12, 31, 23, 59, 59, 999)
    ensures Decode(Encode(Utc(2000, 1, 1, 0, 0, 0, 0))) == Utc(2000, 1, 1, 0, 0, 0, 0)
    ensures Decode(Encode(Utc(2036, 2, 7, 6, 28, 15, 999))) == Utc(2036, 2, 7, 6, 28, 15, 999)
    ensures Decode(Encode(Utc(2036, 2, 7, 6, 28, 16, 0))) == Utc(2036, 2, 7, 6, 28, 16, 0)
    ensures Decode(Encode(Utc(2104, 1, 1, 0, 0, 0, 0))) == Utc(2104, 1, 1, 0, 0, 0, 0)
  {
    RoundTrip(Utc(1970, 1, 1, 0, 0, 0, 0));
    RoundTrip(Utc(1999, 12, 31, 23, 59, 59, 999));
    RoundTrip(Utc(2000, 1, 1, 0, 0, 0, 0));
    RoundTrip(Utc(2036, 2, 7, 6, 28, 15, 999));
    RoundTrip(Utc(2036, 2, 7, 6, 28, 16, 0));
    RoundTrip(Utc(2104, 1, 1, 0, 0, 0, 0));
  }
}
