/**
 * SubRip timestamps `HH:MM:SS,mmm` and integer milliseconds
 * (utils/srtParser.ts `timestampToMs` and `msToTimestamp`).
 */
module Timestamp {
  import opened Wrappers
  import opened Strings

  const MsPerHour := 3600000
  const MsPerMinute := 60000
  const MsPerSecond := 1000
  /** 99:99:99,999, the largest value the two- and three-digit fields can spell. */
  const MaxReadable := 362439999
  /** 100 hours: only the last two digits of the hour field are read back. */
  const HourWrap := 360000000

  /** The regex `(\d{2}):(\d{2}):(\d{2}),(\d{3})` matches at position `i` of `s`. */
  predicate PatternAt(s: string, i: nat)
  {
    i + 12 <= |s|
    && IsDigit(s[i]) && IsDigit(s[i + 1]) && s[i + 2] == ':'
    && IsDigit(s[i + 3]) && IsDigit(s[i + 4]) && s[i + 5] == ':'
    && IsDigit(s[i + 6]) && IsDigit(s[i + 7]) && s[i + 8] == ','
    && IsDigit(s[i + 9]) && IsDigit(s[i + 10]) && IsDigit(s[i + 11])
  }

  function Field2(s: string, i: nat): nat
    requires i + 2 <= |s| && IsDigit(s[i]) && IsDigit(s[i + 1])
  {
    10 * DigitValue(s[i]) + DigitValue(s[i + 1])
  }

  function Field3(s: string, i: nat): nat
    requires i + 3 <= |s| && IsDigit(s[i]) && IsDigit(s[i + 1]) && IsDigit(s[i + 2])
  {
    100 * DigitValue(s[i]) + 10 * DigitValue(s[i + 1]) + DigitValue(s[i + 2])
  }

  /** `h * 3600000 + m * 60000 + s * 1000 + ms` of the match at `i`. */
  function ValueAt(s: string, i: nat): (v: nat)
    requires PatternAt(s, i)
    ensures v <= MaxReadable
  {
    Field2(s, i) * MsPerHour + Field2(s, i + 3) * MsPerMinute + Field2(s, i + 6) * MsPerSecond + Field3(s, i + 9)
  }

  /** The leftmost match at or after `from`. */
  function FirstPatternFrom(s: string, from: nat): (r: Option<nat>)
    ensures r.Some? ==> from <= r.value && PatternAt(s, r.value)
    ensures r.Some? ==> forall j: nat :: from <= j < r.value ==> !PatternAt(s, j)
    ensures r.None? ==> forall j: nat :: from <= j ==> !PatternAt(s, j)
    decreases |s| - from
  {
    if from + 12 > |s| then None
    else if PatternAt(s, from) then Some(from)
    else FirstPatternFrom(s, from + 1)
  }

  /**
   * `timestampToMs`: the value of the first `DD:DD:DD,DDD` anywhere in the
   * string (the regex is not anchored), and 0 when there is none.
   */
  function TimestampToMs(ts: string): (ms: nat)
    ensures ms <= MaxReadable
    ensures (forall j: nat :: !PatternAt(ts, j)) ==> ms == 0
    ensures forall p: nat :: PatternAt(ts, p) && (forall j: nat :: j < p ==> !PatternAt(ts, j)) ==> ms == ValueAt(ts, p)
  {
    FirstPatternIsLeftmost(ts);
    match FirstPatternFrom(ts, 0)
    case None => 0
    case Some(p) => ValueAt(ts, p)
  }

  lemma FirstPatternIsLeftmost(ts: string)
    ensures FirstPatternFrom(ts, 0).None? ==> forall j: nat :: !PatternAt(ts, j)
    ensures forall p: nat :: (PatternAt(ts, p) && (forall j: nat :: j < p ==> !PatternAt(ts, j))) ==>
                              FirstPatternFrom(ts, 0) == Some(p)
  {
    var f := FirstPatternFrom(ts, 0);
    forall p: nat | PatternAt(ts, p) && (forall j: nat :: j < p ==> !PatternAt(ts, j))
      ensures f == Some(p)
    {
      assert f.Some?;
    }
  }

  function Pad2(n: nat): string
  {
    PadStart(NatToString(n), 2, '0')
  }

  function Pad3(n: nat): string
  {
    PadStart(NatToString(n), 3, '0')
  }

  /**
   * The last twelve characters of `r` are the only match of the timestamp
   * pattern in it, and they spell the fields `h`, `m`, `s`, `x`.
   */
  predicate EndsWithClock(r: string, h: nat, m: nat, s: nat, x: nat)
  {
    |r| >= 12 && PatternAt(r, |r| - 12)
    && (forall j: nat :: j < |r| - 12 ==> !PatternAt(r, j))
    && Field2(r, |r| - 12) == h && Field2(r, |r| - 9) == m
    && Field2(r, |r| - 6) == s && Field3(r, |r| - 3) == x
  }

  /** The template `${hh}:${mm}:${ss},${mmm}`, each field padded with zeros but never cut. */
  function Clock(h: nat, m: nat, s: nat, x: nat): string
  {
    Pad2(h) + ":" + Pad2(m) + ":" + Pad2(s) + "," + Pad3(x)
  }

  /**
   * A clock with minutes and seconds below 100 and milliseconds below 1000
   * ends in the one match of the pattern, which spells the hours modulo 100
   * and the other fields exactly; it is twelve characters long exactly when
   * the hours are below 100, and holds no space.
   */
  lemma ClockFormat(h: nat, m: nat, s: nat, x: nat)
    requires m < 100 && s < 100 && x < 1000
    ensures EndsWithClock(Clock(h, m, s, x), h % 100, m, s, x)
    ensures h < 100 <==> |Clock(h, m, s, x)| == 12
    ensures ' ' !in Clock(h, m, s, x)
  {
    LastTwoDigits(h);
    HourLength(h);
    TwoDigitField(m);
    TwoDigitField(s);
    ThreeDigitField(x);
    Layout(Pad2(h), Pad2(m), Pad2(s), Pad3(x), Clock(h, m, s, x), h % 100, m, s, x);
  }

  /**
   * `msToTimestamp` for a whole, non-negative number of milliseconds: hours,
   * minutes of the hour, seconds of the minute, milliseconds of the second.
   */
  function MsToTimestamp(ms: nat): string
  {
    Clock(ms / MsPerHour, ms % MsPerHour / MsPerMinute, ms % MsPerMinute / MsPerSecond, ms % MsPerSecond)
  }

  /**
   * The formatted text ends in the one match of the pattern; minutes and
   * seconds are below 60; it is twelve characters long exactly below 100
   * hours; it holds no space, so two of them joined by " --> " split back
   * apart.
   */
  lemma MsToTimestampFormat(ms: nat)
    ensures EndsWithClock(MsToTimestamp(ms), ms / MsPerHour % 100, ms % MsPerHour / MsPerMinute,
                          ms % MsPerMinute / MsPerSecond, ms % MsPerSecond)
    ensures ms % MsPerHour / MsPerMinute < 60 && ms % MsPerMinute / MsPerSecond < 60
    ensures ms < HourWrap <==> |MsToTimestamp(ms)| == 12
    ensures ' ' !in MsToTimestamp(ms)
  {
    ClockRanges(ms);
    ClockFormat(ms / MsPerHour, ms % MsPerHour / MsPerMinute, ms % MsPerMinute / MsPerSecond, ms % MsPerSecond);
  }

  /**
   * Reading back a formatted timestamp gives the milliseconds modulo 100
   * hours: the regex sees only the last two hour digits.
   */
  lemma TimestampRoundTrip(ms: nat)
    ensures TimestampToMs(MsToTimestamp(ms)) == ms % HourWrap
  {
    MsToTimestampFormat(ms);
    ClockSum(ms);
  }

  lemma TimestampRoundTripBelowWrap(ms: nat)
    requires ms < HourWrap
    ensures TimestampToMs(MsToTimestamp(ms)) == ms
  {
    assert ms % HourWrap == ms;
    TimestampRoundTrip(ms);
  }

  lemma DivModUnique(n: int, d: int, q: int, r: int)
    requires d > 0 && 0 <= r < d && n == q * d + r
    ensures n / d == q && n % d == r
  {
    var q' := n / d;
    if q' > q {
      MultiplyAtLeastOnce(q' - q, d);
    } else if q' < q {
      MultiplyAtLeastOnce(q - q', d);
    }
  }

  lemma MultiplyAtLeastOnce(k: int, d: int)
    requires k >= 1 && d > 0
    ensures k * d >= d
  {
  }

  lemma ClockRanges(ms: nat)
    ensures ms % MsPerHour / MsPerMinute < 60
    ensures ms % MsPerMinute / MsPerSecond < 60
    ensures ms % MsPerSecond < 1000
  {
    var a := ms % MsPerHour;
    var b := a % MsPerMinute;
    DivModUnique(ms, MsPerMinute, ms / MsPerHour * 60 + a / MsPerMinute, b);
  }

  /** The fields of a clock add back up to the milliseconds modulo 100 hours. */
  lemma ClockSum(ms: nat)
    ensures ms / MsPerHour % 100 * MsPerHour + ms % MsPerHour / MsPerMinute * MsPerMinute
            + ms % MsPerMinute / MsPerSecond * MsPerSecond + ms % MsPerSecond == ms % HourWrap
  {
    var h := ms / MsPerHour;
    var a := ms % MsPerHour;
    var m := a / MsPerMinute;
    var b := a % MsPerMinute;
    var s := b / MsPerSecond;
    var x := b % MsPerSecond;
    DivModUnique(ms, MsPerMinute, h * 60 + m, b);
    DivModUnique(ms, MsPerSecond, (h * 60 + m) * 60 + s, x);
    DivModUnique(ms, HourWrap, h / 100, h % 100 * MsPerHour + a);
  }

  /** `v.toString()` for a whole number: a minus sign before the digits of a negative one. */
  function IntToString(v: int): string
  {
    if v < 0 then "-" + NatToString(-v) else NatToString(v)
  }

  /** `v.toString().padStart(width, '0')`: the zeros go before a minus sign too, and nothing is cut. */
  function PadInt(v: int, width: nat): string
  {
    PadStart(IntToString(v), width, '0')
  }

  /** The template `${hh}:${mm}:${ss},${mmm}` for fields of any sign. */
  function SignedClock(h: int, m: int, s: int, x: int): string
  {
    PadInt(h, 2) + ":" + PadInt(m, 2) + ":" + PadInt(s, 2) + "," + PadInt(x, 3)
  }

  /**
   * `msToTimestamp` as written, for any finite number of milliseconds: each
   * field is `Math.floor` of a quotient or of a JavaScript remainder, which
   * takes the sign of the time.
   */
  function MsToTimestampOf(ms: real): string
  {
    SignedClock((ms / MsPerHour as real).Floor, (JsRem(ms, MsPerHour) / MsPerMinute as real).Floor,
                (JsRem(ms, MsPerMinute) / MsPerSecond as real).Floor, (JsRem(ms, MsPerSecond) / 1.0).Floor)
  }

  /** Formatting a fractional, non-negative time is formatting its whole milliseconds. */
  lemma MsToTimestampOfFloor(ms: real)
    requires ms >= 0.0
    ensures ms.Floor >= 0 && MsToTimestampOf(ms) == MsToTimestamp(ms.Floor)
  {
    FloorOfQuotient(ms, MsPerHour);
    FloorOfRemainder(ms, MsPerHour, MsPerMinute);
    FloorOfRemainder(ms, MsPerMinute, MsPerSecond);
    FloorOfRemainder(ms, MsPerSecond, 1);
    var f := ms.Floor;
    assert (JsRem(ms, MsPerSecond) / 1.0).Floor == f % MsPerSecond;
    assert MsToTimestampOf(ms)
        == SignedClock(f / MsPerHour, f % MsPerHour / MsPerMinute, f % MsPerMinute / MsPerSecond, f % MsPerSecond);
  }

  /** Whatever the time, the text has no space and is at least twelve characters long. */
  lemma MsToTimestampOfNoSpace(ms: real)
    ensures ' ' !in MsToTimestampOf(ms) && |MsToTimestampOf(ms)| >= 12
  {
    SignedClockNoSpace((ms / MsPerHour as real).Floor, (JsRem(ms, MsPerHour) / MsPerMinute as real).Floor,
                       (JsRem(ms, MsPerMinute) / MsPerSecond as real).Floor, (JsRem(ms, MsPerSecond) / 1.0).Floor);
  }

  lemma SignedClockNoSpace(h: int, m: int, s: int, x: int)
    ensures ' ' !in SignedClock(h, m, s, x) && |SignedClock(h, m, s, x)| >= 12
  {
    PadIntNoSpace(h, 2);
    PadIntNoSpace(m, 2);
    PadIntNoSpace(s, 2);
    PadIntNoSpace(x, 3);
  }

  lemma PadIntNoSpace(v: int, width: nat)
    ensures ' ' !in PadInt(v, width) && |PadInt(v, width)| >= width
  {
    var digits := NatToString(if v < 0 then -v else v);
    assert forall i :: 0 <= i < |digits| ==> digits[i] != ' ' by {
      assert AllDigits(digits);
    }
    assert ' ' !in IntToString(v);
  }

  /** A negative time writes a negative hour field: the text starts with a minus sign. */
  lemma NegativeTimeSign(ms: real)
    requires ms < 0.0
    ensures MsToTimestampOf(ms)[0] == '-'
  {
    var h := (ms / MsPerHour as real).Floor;
    assert ms / MsPerHour as real < 0.0;
    assert h < 0;
    assert IntToString(h)[0] == '-' && |IntToString(h)| >= 2;
  }

  /**
   * JavaScript's `x % n` for a positive integer modulus: the remainder has
   * the sign of `x` and the size of `|x|` modulo `n`.
   */
  function JsRem(x: real, n: nat): (r: real)
    requires n > 0
    ensures x >= 0.0 ==> 0.0 <= r < n as real
    ensures x <= 0.0 ==> -(n as real) < r <= 0.0
    decreases if x >= 0.0 then 0 else 1
  {
    if x >= 0.0 then
      var q := (x / n as real).Floor;
      FloorOfQuotient(x, n);
      assert n * q <= x.Floor < n * q + n;
      x - n as real * q as real
    else
      -JsRem(-x, n)
  }

  lemma FloorOfQuotient(x: real, n: nat)
    requires x >= 0.0 && n > 0
    ensures (x / n as real).Floor == x.Floor / n
  {
    var k := x.Floor;
    var q := k / n;
    var y := x / n as real;
    assert k == q * n + k % n && 0 <= k % n < n;
    assert (q + 1) * n == q * n + n;
    CastProduct(q, n);
    CastProduct(q + 1, n);
    assert q as real * n as real <= x < (q + 1) as real * n as real;
    assert y * n as real == x;
    assert q as real * n as real <= y * n as real;
    assert y * n as real < (q + 1) as real * n as real;
    ScaleBack(q as real, y, n as real);
    ScaleBack(y, (q + 1) as real, n as real);
    assert q as real <= y < (q + 1) as real;
  }

  lemma CastProduct(a: int, b: int)
    ensures (a * b) as real == a as real * b as real
  {
  }

  /** Comparing two reals scaled by the same positive factor. */
  lemma ScaleBack(a: real, b: real, c: real)
    requires c > 0.0
    ensures a * c <= b * c ==> a <= b
    ensures a * c < b * c ==> a < b
  {
  }

  lemma FloorOfRemainder(x: real, n: nat, d: nat)
    requires x >= 0.0 && n > 0 && d > 0
    ensures (JsRem(x, n) / d as real).Floor == x.Floor % n / d
  {
    FloorOfQuotient(x, n);
    var q := (x / n as real).Floor;
    var y := JsRem(x, n);
    assert y.Floor == x.Floor - n * q;
    assert x.Floor - n * q == x.Floor % n;
    FloorOfQuotient(y, d);
  }

  /** Where the fields of `h:mm:ss,mmm` sit, for an hour field of two or more digits. */
  lemma Layout(hs: string, ms: string, ss: string, xs: string, r: string, h: nat, m: nat, s: nat, x: nat)
    requires |hs| >= 2 && AllDigits(hs) && Field2(hs, |hs| - 2) == h
    requires |ms| == 2 && AllDigits(ms) && Field2(ms, 0) == m
    requires |ss| == 2 && AllDigits(ss) && Field2(ss, 0) == s
    requires |xs| == 3 && AllDigits(xs) && Field3(xs, 0) == x
    requires r == hs + ":" + ms + ":" + ss + "," + xs
    ensures |r| == |hs| + 10 && EndsWithClock(r, h, m, s, x)
    ensures ' ' !in r
  {
    assert forall k :: 0 <= k < |hs| ==> r[k] == hs[k];
    assert r[|hs|..] == ":" + ms + ":" + ss + "," + xs;
    forall j: nat | j < |hs| - 2 ensures !PatternAt(r, j) {
      assert r[j + 2] == hs[j + 2];
    }
    forall k | 0 <= k < |r| ensures r[k] != ' ' {
      if k < |hs| { assert r[k] == hs[k]; }
    }
  }

  lemma PaddedDigits(n: nat, w: nat)
    ensures AllDigits(PadStart(NatToString(n), w, '0'))
    ensures |PadStart(NatToString(n), w, '0')| >= w
  {
    var s := NatToString(n);
    var p := PadStart(s, w, '0');
    var k := |p| - |s|;
    assert p[k..] == s;
    forall i | 0 <= i < |p| ensures IsDigit(p[i]) {
      if i < k {
        assert p[i] == '0';
      } else {
        assert p[i] == p[k..][i - k];
      }
    }
  }

  /** The last two characters of a padded number spell it modulo 100. */
  lemma LastTwoDigits(n: nat)
    ensures |Pad2(n)| >= 2 && AllDigits(Pad2(n))
    ensures Field2(Pad2(n), |Pad2(n)| - 2) == n % 100
  {
    var p := Pad2(n);
    PaddedDigits(n, 2);
    if n < 10 {
      assert p == ['0'] + NatToString(n);
    } else {
      var t := NatToString(n / 10);
      assert p == t + [DigitChar(n % 10)];
      assert p[|p| - 2] == t[|t| - 1];
      DigitPair(n);
    }
  }

  lemma DigitPair(n: nat)
    ensures 10 * (n / 10 % 10) + n % 10 == n % 100
  {
  }

  lemma TwoDigitField(n: nat)
    requires n < 100
    ensures |Pad2(n)| == 2 && AllDigits(Pad2(n)) && Field2(Pad2(n), 0) == n
  {
    LastTwoDigits(n);
    PaddedDigits(n, 2);
  }

  lemma ThreeDigitField(n: nat)
    requires n < 1000
    ensures |Pad3(n)| == 3 && AllDigits(Pad3(n)) && Field3(Pad3(n), 0) == n
  {
    var p := Pad3(n);
    var d := [DigitChar(n / 100), DigitChar(n / 10 % 10), DigitChar(n % 10)];
    if n < 10 {
      assert p == ['0', '0'] + NatToString(n);
    } else if n < 100 {
      TwoDigitString(n);
      assert p == ['0'] + NatToString(n);
    } else {
      TwoDigitString(n / 10);
      assert NatToString(n) == NatToString(n / 10) + [DigitChar(n % 10)];
    }
    assert p == d;
  }

  lemma TwoDigitString(n: nat)
    requires 10 <= n < 100
    ensures NatToString(n) == [DigitChar(n / 10), DigitChar(n % 10)]
  {
  }

  lemma HourLength(h: nat)
    ensures h < 100 <==> |Pad2(h)| == 2
  {
    if 10 <= h {
      assert NatToString(h) == NatToString(h / 10) + [DigitChar(h % 10)];
    }
  }
}
