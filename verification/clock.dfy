/** Calendar values and the `%H:%M:%S` rendering of a time of day. */
module Clock {

  /** A naive calendar date and time, as Python's `datetime` holds it. */
  datatype DateTime = DateTime(year: int, month: int, day: int,
                               hour: int, minute: int, second: int, microsecond: int)

  const SecondsPerDay: nat := 86400

  /** The decimal digit character for `d`. */
  function Digit(d: nat): (c: char)
    requires d < 10
    ensures '0' <= c <= '9'
    ensures DigitValue(c) == d
  {
    ['0', '1', '2', '3', '4', '5', '6', '7', '8', '9'][d]
  }

  function DigitValue(c: char): int {
    c as int - '0' as int
  }

  predicate IsDigit(c: char) {
    '0' <= c <= '9'
  }

  /** The value of a two-digit decimal field. */
  function FieldValue(s: string, i: nat): int
    requires i + 2 <= |s|
  {
    10 * DigitValue(s[i]) + DigitValue(s[i + 1])
  }

  /** `n` written with two digits, zero-padded (strftime's `%H`, `%M`, `%S`). */
  function Pad2(n: nat): (r: string)
    requires n < 100
    ensures |r| == 2 && IsDigit(r[0]) && IsDigit(r[1])
    ensures FieldValue(r, 0) == n
  {
    [Digit(n / 10), Digit(n % 10)]
  }

  /** A well-formed `HH:MM:SS` string. */
  predicate IsClockText(t: string) {
    && |t| == 8
    && t[2] == ':' && t[5] == ':'
    && IsDigit(t[0]) && IsDigit(t[1]) && IsDigit(t[3])
    && IsDigit(t[4]) && IsDigit(t[6]) && IsDigit(t[7])
    && FieldValue(t, 0) < 24 && FieldValue(t, 3) < 60 && FieldValue(t, 6) < 60
  }

  /** The number of seconds since midnight an `HH:MM:SS` string denotes. */
  function ClockSeconds(t: string): int
    requires |t| == 8
  {
    FieldValue(t, 0) * 3600 + FieldValue(t, 3) * 60 + FieldValue(t, 6)
  }

  /** `datetime.utcfromtimestamp(x).strftime('%H:%M:%S')`: the UTC time of
      day of epoch second `x`. For negative `x` the day still starts at
      midnight, which is what the floor modulus gives. */
  function TimeOfDay(x: int): (t: string)
    ensures IsClockText(t)
    ensures ClockSeconds(t) == x % SecondsPerDay
  {
    var s := x % SecondsPerDay;
    var h, m, sec := s / 3600, s % 3600 / 60, s % 60;
    SplitSeconds(s);
    var hh, mm, ss := Pad2(h), Pad2(m), Pad2(sec);
    var t := hh + ":" + mm + ":" + ss;
    assert t[0] == hh[0] && t[1] == hh[1] && t[2] == ':';
    assert t[3] == mm[0] && t[4] == mm[1] && t[5] == ':';
    assert t[6] == ss[0] && t[7] == ss[1];
    t
  }

  /** A second of the day splits into hours, minutes and seconds. */
  lemma SplitSeconds(s: int)
    requires 0 <= s < SecondsPerDay
    ensures s / 3600 < 24 && s % 3600 / 60 < 60 && s % 60 < 60
    ensures s / 3600 * 3600 + s % 3600 / 60 * 60 + s % 60 == s
  {
    var r := s % 3600;
    assert s == s / 3600 * 3600 + r;
    assert r == r / 60 * 60 + r % 60;
    assert r % 60 == s % 60 by {
      assert s == (s / 3600 * 60 + r / 60) * 60 + r % 60;
    }
  }

  /** Two epoch seconds render the same time of day exactly when they are
      a whole number of days apart. */
  lemma TimeOfDaySameIffWholeDays(x: int, y: int)
    ensures TimeOfDay(x) == TimeOfDay(y) <==> (x - y) % SecondsPerDay == 0
  {
    var tx, ty := TimeOfDay(x), TimeOfDay(y);
    if x % SecondsPerDay == y % SecondsPerDay {
      RenderInjective(tx, ty);
    }
    SameRemainderIff(x, y);
  }

  /** Equal remainders modulo a day are a whole number of days apart. */
  lemma SameRemainderIff(x: int, y: int)
    ensures x % SecondsPerDay == y % SecondsPerDay <==> (x - y) % SecondsPerDay == 0
  {
    var qx, qy := x / SecondsPerDay, y / SecondsPerDay;
    var a, b := x % SecondsPerDay, y % SecondsPerDay;
    assert x == qx * SecondsPerDay + a;
    assert y == qy * SecondsPerDay + b;
    assert x - y == (qx - qy) * SecondsPerDay + (a - b);
    RemainderOfShift(qx - qy, a - b);
  }

  /** Shifting by whole days leaves the remainder of a small offset. */
  lemma RemainderOfShift(q: int, d: int)
    requires -(SecondsPerDay as int) < d < SecondsPerDay
    ensures (q * SecondsPerDay + d) % SecondsPerDay == 0 <==> d == 0
  {
    if d >= 0 {
      ModUnique(q * SecondsPerDay + d, q, d);
    } else {
      ModUnique(q * SecondsPerDay + d, q - 1, d + SecondsPerDay);
    }
  }

  lemma ModUnique(n: int, q: int, r: int)
    requires 0 <= r < SecondsPerDay && n == q * SecondsPerDay + r
    ensures n % SecondsPerDay == r
  {
  }

  /** Two clock texts that denote the same second of the day are equal. */
  lemma RenderInjective(t: string, u: string)
    requires IsClockText(t) && IsClockText(u)
    requires ClockSeconds(t) == ClockSeconds(u)
    ensures t == u
  {
    assert FieldValue(t, 0) == FieldValue(u, 0);
    assert FieldValue(t, 3) == FieldValue(u, 3);
    assert FieldValue(t, 6) == FieldValue(u, 6);
    DigitsOfField(t, u, 0);
    DigitsOfField(t, u, 3);
    DigitsOfField(t, u, 6);
  }

  lemma DigitsOfField(t: string, u: string, i: nat)
    requires i + 2 <= |t| && i + 2 <= |u|
    requires IsDigit(t[i]) && IsDigit(t[i + 1]) && IsDigit(u[i]) && IsDigit(u[i + 1])
    requires FieldValue(t, i) == FieldValue(u, i)
    ensures t[i] == u[i] && t[i + 1] == u[i + 1]
  {
  }
}
