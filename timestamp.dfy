/**
  The subtitle timestamp `HH:MM:SS,mmm`: the formatter of main.py (`srt_time`), the
  timedelta-based formatter of the second and third prototypes and the divmod-based one of the
  fourth, and a reader for the format that inverts `srt_time`.
 */
module Timestamp {
  import opened Wrappers
  import opened Decimal

  /** Clock fields of a millisecond count; the hour field is not wrapped at 24. */
  datatype Clock = Clock(hours: int, minutes: nat, seconds: nat, millis: nat)

  predicate InRange(c: Clock) {
    c.minutes < 60 && c.seconds < 60 && c.millis < 1000
  }

  /** The millisecond count a clock stands for. */
  function ClockValue(c: Clock): int {
    c.hours * 3600000 + c.minutes * 60000 + c.seconds * 1000 + c.millis
  }

  /** `srt_time`'s fields: the input clamped at 0, then split by integer division. */
  function SrtFields(ms: int): Clock {
    var m := if ms < 0 then 0 else ms;
    Clock(m / 3600000, (m % 3600000) / 60000, (m % 60000) / 1000, m % 1000)
  }

  /** The fields are in range and stand for the clamped count. */
  lemma SrtFieldsValue(ms: int)
    ensures var c := SrtFields(ms);
      InRange(c) && c.hours >= 0 && ClockValue(c) == if ms < 0 then 0 else ms
  {
    var m := if ms < 0 then 0 else ms;
    var h, r := m / 3600000, m % 3600000;
    assert m == h * 3600000 + r;
    var mi, r2 := r / 60000, r % 60000;
    assert r == mi * 60000 + r2;
    ModOfMod(m, h, r, mi, r2);
    var c := SrtFields(ms);
    assert c.minutes == mi && c.seconds == r2 / 1000 && c.millis == m % 1000;
    assert r2 == (r2 / 1000) * 1000 + r2 % 1000;
    assert r2 % 1000 == m % 1000 by { ModOfMod2(m, r2); }
  }

  /** `(m % 3600000) % 60000 == m % 60000`, spelled out. */
  lemma ModOfMod(m: nat, h: nat, r: nat, mi: nat, r2: nat)
    requires m == h * 3600000 + r && r < 3600000
    requires r == mi * 60000 + r2 && r2 < 60000
    ensures m % 60000 == r2
  {
    assert m == (h * 60 + mi) * 60000 + r2;
  }

  /** `(m % 60000) % 1000 == m % 1000` once `m % 60000` is known. */
  lemma ModOfMod2(m: nat, r2: nat)
    requires r2 == m % 60000
    ensures r2 % 1000 == m % 1000
  {
    var q := m / 60000;
    assert m == q * 60000 + r2;
    assert m == (q * 60) * 1000 + r2;
  }

  /** `f"{hh:02d}:{mm:02d}:{ss:02d},{mmm:03d}"`. */
  function Render(c: Clock): string {
    PaddedInt(c.hours, 2) + ClockTail(c)
  }

  /** Everything after the hour field: `":MM:SS,mmm"`. */
  function ClockTail(c: Clock): string {
    ":" + PaddedNat(c.minutes, 2) + ":" + PaddedNat(c.seconds, 2) + "," + PaddedNat(c.millis, 3)
  }

  lemma TailFields(c: Clock)
    requires InRange(c)
    ensures var t := ClockTail(c);
      |t| == 10
      && t[0] == ':' && t[1..3] == PaddedNat(c.minutes, 2)
      && t[3] == ':' && t[4..6] == PaddedNat(c.seconds, 2)
      && t[6] == ',' && t[7..] == PaddedNat(c.millis, 3)
  {
    assert Pow10(2) == 100 && Pow10(3) == 1000;
    PaddedNatDigits(c.minutes, 2);
    PaddedNatDigits(c.seconds, 2);
    PaddedNatDigits(c.millis, 3);
  }

  /** The shape `\d{2,}:\d{2}:\d{2},\d{3}`. */
  predicate SrtTimeShape(s: string) {
    var n := |s|;
    n >= 12 && s[n - 10] == ':' && s[n - 7] == ':' && s[n - 4] == ','
    && AllDigits(s[..n - 10]) && AllDigits(s[n - 9..n - 7]) && AllDigits(s[n - 6..n - 4])
    && AllDigits(s[n - 3..])
  }

  /** main.py `srt_time`. */
  function SrtTime(ms: int): string {
    Render(SrtFields(ms))
  }

  /** Whatever the input, `srt_time` produces the shape `HH:MM:SS,mmm`. */
  lemma SrtTimeShaped(ms: int)
    ensures SrtTimeShape(SrtTime(ms))
  {
    SrtFieldsValue(ms);
    RenderShape(SrtFields(ms));
  }

  /** Reads `HH:MM:SS,mmm` back into milliseconds; `None` for anything not of that shape. */
  function ParseSrtTime(s: string): (r: Option<nat>)
    ensures r.Some? <==> SrtTimeShape(s)
  {
    if SrtTimeShape(s) then Some(ClockValue(ReadClock(s))) else None
  }

  /** The four digit fields of a string of timestamp shape. */
  function ReadClock(s: string): (c: Clock)
    requires SrtTimeShape(s)
    ensures c.hours >= 0
  {
    var n := |s|;
    DigitsValueNonNegative(s[..n - 10]);
    DigitsValueNonNegative(s[n - 9..n - 7]);
    DigitsValueNonNegative(s[n - 6..n - 4]);
    DigitsValueNonNegative(s[n - 3..]);
    Clock(DigitsValue(s[..n - 10]), DigitsValue(s[n - 9..n - 7]), DigitsValue(s[n - 6..n - 4]),
          DigitsValue(s[n - 3..]))
  }

  /** Splitting a rendered clock back into its four fields. */
  lemma RenderFields(c: Clock)
    requires InRange(c) && c.hours >= 0
    ensures var s := Render(c); var n := |s|;
      n >= 12
      && s[..n - 10] == PaddedNat(c.hours, 2)
      && s[n - 10] == ':' && s[n - 9..n - 7] == PaddedNat(c.minutes, 2)
      && s[n - 7] == ':' && s[n - 6..n - 4] == PaddedNat(c.seconds, 2)
      && s[n - 4] == ',' && s[n - 3..] == PaddedNat(c.millis, 3)
  {
    TailFields(c);
    PaddedNatDigits(c.hours, 2);
    var h, t := PaddedInt(c.hours, 2), ClockTail(c);
    var s := Render(c);
    assert s == h + t;
    assert |h| >= 2;
    assert s[..|s| - 10] == h;
    assert s[|s| - 10..] == t;
    assert s[|s| - 9..|s| - 7] == t[1..3];
    assert s[|s| - 6..|s| - 4] == t[4..6];
    assert s[|s| - 3..] == t[7..];
  }

  lemma RenderShape(c: Clock)
    requires InRange(c) && c.hours >= 0
    ensures SrtTimeShape(Render(c))
  {
    RenderFields(c);
    PaddedNatDigits(c.hours, 2);
    PaddedNatDigits(c.minutes, 2);
    PaddedNatDigits(c.seconds, 2);
    PaddedNatDigits(c.millis, 3);
  }

  /** Negative input is clamped: it renders as time zero. */
  lemma SrtTimeClampsNegative(ms: int)
    requires ms < 0
    ensures SrtTime(ms) == SrtTime(0)
  {
  }

  /** Reading back what `srt_time` wrote gives the (clamped) input. */
  lemma SrtTimeRoundTrip(ms: int)
    ensures ParseSrtTime(SrtTime(ms)) == Some(if ms < 0 then 0 else ms)
  {
    SrtFieldsValue(ms);
    ParseRender(SrtFields(ms));
  }

  lemma ParseRender(c: Clock)
    requires InRange(c) && c.hours >= 0
    ensures ParseSrtTime(Render(c)) == Some(ClockValue(c))
  {
    RenderFields(c);
    RenderShape(c);
    ReadFields(Render(c), c);
  }

  lemma ReadFields(r: string, c: Clock)
    requires |r| >= 12 && SrtTimeShape(r) && c.hours >= 0
    requires r[..|r| - 10] == PaddedNat(c.hours, 2) && r[|r| - 9..|r| - 7] == PaddedNat(c.minutes, 2)
    requires r[|r| - 6..|r| - 4] == PaddedNat(c.seconds, 2) && r[|r| - 3..] == PaddedNat(c.millis, 3)
    ensures ReadClock(r) == c
  {
    PaddedNatDigits(c.hours, 2);
    PaddedNatDigits(c.minutes, 2);
    PaddedNatDigits(c.seconds, 2);
    PaddedNatDigits(c.millis, 3);
  }

  /** Hence `srt_time` tells every two non-negative millisecond counts apart. */
  lemma SrtTimeInjective(a: nat, b: nat)
    requires SrtTime(a) == SrtTime(b)
    ensures a == b
  {
    SrtTimeRoundTrip(a);
    SrtTimeRoundTrip(b);
  }

  /** `format_timestamp` of the second and third prototypes: `int(td.total_seconds())`
      truncates towards zero, the rest is Python floor division and modulo. */
  function TimedeltaFields(ms: int): Clock {
    var totalSeconds := if ms >= 0 then ms / 1000 else -((-ms) / 1000);
    Clock(totalSeconds / 3600, (totalSeconds % 3600) / 60, totalSeconds % 60, ms % 1000)
  }

  function FormatTimestampTimedelta(ms: int): string {
    Render(TimedeltaFields(ms))
  }

  /** For every count the recogniser can produce the prototype formatter agrees with `srt_time`. */
  lemma TimedeltaAgreesWithSrtTime(ms: nat)
    ensures FormatTimestampTimedelta(ms) == SrtTime(ms)
  {
    var t, r := ms / 1000, ms % 1000;
    var h, tr := t / 3600, t % 3600;
    var mi, sec := tr / 60, tr % 60;
    Decompose(ms, t, r, h, tr, mi, sec);
    assert TimedeltaFields(ms) == Clock(h, mi, sec, r);
    assert SrtFields(ms) == Clock(h, mi, sec, r);
  }

  /** Splitting seconds first and milliseconds first lead to the same fields. */
  lemma Decompose(ms: nat, t: nat, r: nat, h: nat, tr: nat, mi: nat, sec: nat)
    requires ms == 1000 * t + r && r < 1000
    requires t == 3600 * h + tr && tr < 3600
    requires tr == 60 * mi + sec && sec < 60
    ensures ms / 3600000 == h && (ms % 3600000) / 60000 == mi && (ms % 60000) / 1000 == sec
  {
    DivModUnique(ms, 3600000, h, 60000 * mi + 1000 * sec + r);
    DivModUnique(60000 * mi + 1000 * sec + r, 60000, mi, 1000 * sec + r);
    DivModUnique(ms, 60000, 60 * h + mi, 1000 * sec + r);
    DivModUnique(1000 * sec + r, 1000, sec, r);
  }

  /** Quotient and remainder are determined by `x == q * d + r` with `0 <= r < d`. */
  lemma DivModUnique(x: int, d: int, q: int, r: int)
    requires d > 0 && x == q * d + r && 0 <= r < d
    ensures x / d == q && x % d == r
  {
    var q', r' := x / d, x % d;
    assert x == q' * d + r';
    assert (q - q') * d == r' - r by {
      assert (q - q') * d == q * d - q' * d;
    }
    if q > q' {
      MulAtLeast(q - q', d);
    } else if q < q' {
      MulAtLeast(q' - q, d);
    }
  }

  lemma {:induction false} MulAtLeast(a: int, d: int)
    requires a >= 1 && d > 0
    ensures a * d >= d
    decreases a
  {
    if a > 1 {
      MulAtLeast(a - 1, d);
      assert a * d == (a - 1) * d + d;
    }
  }

  /** `format_timestamp` of the fourth prototype: three `divmod` steps. */
  function DivmodFields(ms: int): Clock {
    var s, milli := ms / 1000, ms % 1000;
    var m, sec := s / 60, s % 60;
    var h, min := m / 60, m % 60;
    Clock(h, min, sec, milli)
  }

  /** Python's `divmod` keeps every remainder in range, so the fields stand for `ms` exactly,
      negative counts included (the hour field then carries the sign). */
  lemma DivmodFieldsValue(ms: int)
    ensures var c := DivmodFields(ms);
      InRange(c) && ClockValue(c) == ms && (ms >= 0 <==> c.hours >= 0)
  {
    var s, milli := ms / 1000, ms % 1000;
    var m, sec := s / 60, s % 60;
    var h, min := m / 60, m % 60;
    assert ms == s * 1000 + milli;
    assert s == m * 60 + sec;
    assert m == h * 60 + min;
    assert ms == h * 3600000 + min * 60000 + sec * 1000 + milli;
  }

  function FormatTimestampDivmod(ms: int): string {
    Render(DivmodFields(ms))
  }

  /** Two clocks in range that stand for the same count are the same clock. */
  lemma {:induction false} ClockUnique(c: Clock, d: Clock)
    requires InRange(c) && InRange(d)
    requires ClockValue(c) == ClockValue(d)
    ensures c == d
  {
    var rc := c.minutes * 60000 + c.seconds * 1000 + c.millis;
    var rd := d.minutes * 60000 + d.seconds * 1000 + d.millis;
    assert 0 <= rc < 3600000 && 0 <= rd < 3600000;
    assert c.hours == d.hours;
    assert c.minutes * 60000 + c.seconds * 1000 + c.millis == d.minutes * 60000 + d.seconds * 1000 + d.millis;
    assert c.minutes == d.minutes;
    assert c.seconds == d.seconds;
  }

  lemma DivmodAgreesWithSrtTime(ms: nat)
    ensures FormatTimestampDivmod(ms) == SrtTime(ms)
  {
    SrtFieldsValue(ms);
    DivmodFieldsValue(ms);
    ClockUnique(DivmodFields(ms), SrtFields(ms));
  }
}
