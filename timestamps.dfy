/**
 * Timestamps on a documented ISO 8601 subset. The recorders stamp readings with
 * `datetime.now(UTC).isoformat()`; the analysis reads them with
 * `datetime.fromisoformat`, with `datetime.strptime(s, '%Y-%m-%dT%H:%M:%S.%f')`
 * as a fallback, and with `pd.to_datetime(..., utc=True)` for throughput.
 *
 * Instants are integer microseconds, so differences are exact.
 *
 * The subset that `fromisoformat` accepts here is
 *   YYYY-MM-DDTHH:MM:SS[(.|,)d+][Z | (+|-)HH:MM]
 * where the first six fraction digits count and further digits are dropped.
 * The subset that the `strptime` pattern accepts is
 *   YYYY-M[M]-D[D](T|t)H[H]:M[M]:S[S].d{1,6}
 * with range checks on each field and nothing after the fraction.
 */
module Timestamps {
  import opened Common
  import opened Text

  /** A wall-clock reading without zone. */
  datatype DateTime = DateTime(year: nat, month: nat, day: nat, hour: nat, minute: nat, second: nat, micro: nat)

  predicate IsLeap(y: nat) { y % 4 == 0 && (y % 100 != 0 || y % 400 == 0) }

  function DaysInMonth(y: nat, m: nat): nat
    requires 1 <= m <= 12
  {
    if m == 2 then (if IsLeap(y) then 29 else 28)
    else if m == 4 || m == 6 || m == 9 || m == 11 then 30
    else 31
  }

  /** The field ranges Python's `datetime` constructor enforces. */
  predicate ValidDateTime(d: DateTime)
  {
    && 1 <= d.year <= 9999
    && 1 <= d.month <= 12
    && 1 <= d.day <= DaysInMonth(d.year, d.month)
    && d.hour < 24 && d.minute < 60 && d.second < 60 && d.micro < 1000000
  }

  function DaysBeforeMonth(y: nat, m: nat): nat
    requires 1 <= m <= 12
  {
    [0, 31, 59, 90, 120, 151, 181, 212, 243, 273, 304, 334][m - 1] + (if m > 2 && IsLeap(y) then 1 else 0)
  }

  /** Proleptic Gregorian day number, 0001-01-01 being day 1 (Python's `toordinal`). */
  function Ordinal(d: DateTime): nat
    requires ValidDateTime(d)
  {
    var y := d.year - 1;
    365 * y + y / 4 - y / 100 + y / 400 + DaysBeforeMonth(d.year, d.month) + d.day
  }

  /** Microseconds since the start of day 0 of the ordinal count. */
  function Micros(d: DateTime): int
    requires ValidDateTime(d)
  {
    (((Ordinal(d) * 24 + d.hour) * 60 + d.minute) * 60 + d.second) * 1000000 + d.micro
  }

  /** A parsed timestamp: the wall clock and, when the text carried one, its UTC offset in minutes. */
  datatype Stamp = Stamp(local: DateTime, offset: Option<int>)

  predicate ValidStamp(st: Stamp)
  {
    ValidDateTime(st.local) && (st.offset.Some? ==> -1440 < st.offset.value < 1440)
  }

  /** The instant a stamp denotes; a stamp without offset is read as UTC, as `utc=True` does. */
  function UtcMicros(st: Stamp): int
    requires ValidDateTime(st.local)
  {
    Micros(st.local) - (if st.offset.Some? then st.offset.value * 60000000 else 0)
  }

  // ---------------------------------------------------------------------------
  // Scanning

  /** A number read from the front of a string, and what follows it. */
  datatype Scan = Scan(value: nat, rest: string)

  /** Exactly `n` digits. */
  function Fixed(s: string, n: nat): (r: Option<Scan>)
    ensures r.Some? ==> |r.value.rest| < |s| || n == 0
  {
    if n <= |s| && IsDigits(s[..n]) then Some(Scan(Value(s[..n]), s[n..])) else None
  }

  /** One expected character. */
  function Expect(s: string, c: char): Option<string>
  {
    if |s| > 0 && s[0] == c then Some(s[1..]) else None
  }

  /** One expected letter, matched as `re.IGNORECASE` does. */
  function ExpectIgnoreCase(s: string, c: char): Option<string>
  {
    if |s| > 0 && LowerChar(s[0]) == LowerChar(c) then Some(s[1..]) else None
  }

  /** Length of the run of digits at the front of `s`. */
  function DigitRun(s: string): (k: nat)
    ensures k <= |s| && IsDigits(s[..k])
    ensures k < |s| ==> !IsDigit(s[k])
  {
    if s == [] || !IsDigit(s[0]) then 0
    else
      var k := DigitRun(s[1..]);
      assert s[..k + 1] == [s[0]] + s[1..][..k];
      k + 1
  }

  /** One or two digits, as the directives %m %d %H %M %S take them when a non-digit follows. */
  function Short(s: string): Option<Scan>
  {
    var k := DigitRun(s);
    if 1 <= k <= 2 then Some(Scan(Value(s[..k]), s[k..])) else None
  }

  /** A fraction of a second in microseconds: the first six digits, right-padded with zeros. */
  function FractionValue(digits: string): nat
    requires IsDigits(digits)
  {
    var n := if |digits| < 6 then |digits| else 6;
    Value(digits[..n]) * Pow10(6 - n)
  }

  /** The optional fraction after the seconds field, as `fromisoformat` reads it. */
  function IsoFraction(s: string): Option<Scan>
  {
    if s == [] || (s[0] != '.' && s[0] != ',') then Some(Scan(0, s))
    else
      var k := DigitRun(s[1..]);
      if k == 0 then None else Some(Scan(FractionValue(s[1..][..k]), s[1..][k..]))
  }

  /** The optional zone designator; `Some(None)` is a naive timestamp. */
  function IsoOffset(s: string): Option<Option<int>>
  {
    if s == [] then Some(None)
    else if s == "Z" then Some(Some(0))
    else if |s| == 6 && (s[0] == '+' || s[0] == '-') && s[3] == ':' && IsDigits(s[1..3]) && IsDigits(s[4..]) then
      var h, m := Value(s[1..3]), Value(s[4..]);
      if h < 24 && m < 60 then Some(Some(if s[0] == '+' then h * 60 + m else -(h * 60 + m))) else None
    else None
  }

  /** Three numbers read in sequence, and what follows them. */
  datatype Fields = Fields(a: nat, b: nat, c: nat, rest: string)

  /** `YYYY-MM-DD` */
  function IsoDate(s: string): Option<Fields>
  {
    var y :- Fixed(s, 4);
    var r0 :- Expect(y.rest, '-');
    var mo :- Fixed(r0, 2);
    var r1 :- Expect(mo.rest, '-');
    var d :- Fixed(r1, 2);
    Some(Fields(y.value, mo.value, d.value, d.rest))
  }

  /** `THH:MM:SS` */
  function IsoClock(s: string): Option<Fields>
  {
    var r0 :- Expect(s, 'T');
    var h :- Fixed(r0, 2);
    var r1 :- Expect(h.rest, ':');
    var mi :- Fixed(r1, 2);
    var r2 :- Expect(mi.rest, ':');
    var sec :- Fixed(r2, 2);
    Some(Fields(h.value, mi.value, sec.value, sec.rest))
  }

  /** `datetime.fromisoformat(s)` on the subset. */
  function FromIsoFormat(s: string): (r: Option<Stamp>)
    ensures r.Some? ==> ValidStamp(r.value)
  {
    var date :- IsoDate(s);
    var clock :- IsoClock(date.rest);
    var f :- IsoFraction(clock.rest);
    var off :- IsoOffset(f.rest);
    var dt := DateTime(date.a, date.b, date.c, clock.a, clock.b, clock.c, f.value);
    if ValidDateTime(dt) then Some(Stamp(dt, off)) else None
  }

  /** `%Y-%m-%d` */
  function StrptimeDate(s: string): Option<Fields>
  {
    var y :- Fixed(s, 4);
    var r0 :- Expect(y.rest, '-');
    var mo :- Short(r0);
    var r1 :- Expect(mo.rest, '-');
    var d :- Short(r1);
    Some(Fields(y.value, mo.value, d.value, d.rest))
  }

  /** `T%H:%M:%S`, the literal `T` matched ignoring case */
  function StrptimeClock(s: string): Option<Fields>
  {
    var r0 :- ExpectIgnoreCase(s, 'T');
    var h :- Short(r0);
    var r1 :- Expect(h.rest, ':');
    var mi :- Short(r1);
    var r2 :- Expect(mi.rest, ':');
    var sec :- Short(r2);
    Some(Fields(h.value, mi.value, sec.value, sec.rest))
  }

  /** `.%f` up to the end of the text: one to six digits. */
  function StrptimeFraction(s: string): Option<nat>
  {
    var r :- Expect(s, '.');
    if 1 <= DigitRun(r) <= 6 && DigitRun(r) == |r| then
      assert r[..DigitRun(r)] == r;
      Some(FractionValue(r))
    else None
  }

  /** `datetime.strptime(s, '%Y-%m-%dT%H:%M:%S.%f')` on the subset; the result is always naive. */
  function Strptime(s: string): (r: Option<DateTime>)
    ensures r.Some? ==> ValidDateTime(r.value)
  {
    var date :- StrptimeDate(s);
    var clock :- StrptimeClock(date.rest);
    var f :- StrptimeFraction(clock.rest);
    var dt := DateTime(date.a, date.b, date.c, clock.a, clock.b, clock.c, f);
    if ValidDateTime(dt) then Some(dt) else None
  }

  /** `pd.to_datetime(s, utc=True)` on the subset: the instant in UTC, offsets honoured. */
  function ParseUtc(s: string): Option<int>
  {
    var st :- FromIsoFormat(s);
    Some(UtcMicros(st))
  }

  // ---------------------------------------------------------------------------
  // Formatting, as the recorders write timestamps

  function DateText(d: DateTime): string
  {
    Pad(d.year, 4) + "-" + Pad(d.month, 2) + "-" + Pad(d.day, 2)
  }

  function ClockText(d: DateTime): string
  {
    "T" + Pad(d.hour, 2) + ":" + Pad(d.minute, 2) + ":" + Pad(d.second, 2)
  }

  /** `isoformat` writes the microseconds only when they are not zero. */
  function FractionText(d: DateTime): string
  {
    if d.micro == 0 then "" else "." + Pad(d.micro, 6)
  }

  /** `d.isoformat()` of a naive datetime. */
  function IsoFormatNaive(d: DateTime): string
  {
    DateText(d) + ClockText(d) + FractionText(d)
  }

  /** The `+HH:MM` / `-HH:MM` designator `isoformat` appends for an offset in minutes. */
  function OffsetText(offset: int): string
  {
    var a := if offset < 0 then -offset else offset;
    (if offset < 0 then "-" else "+") + Pad(a / 60, 2) + ":" + Pad(a % 60, 2)
  }

  /** `d.isoformat()` of a datetime with the given zone (`None` for naive); `datetime.now(UTC)` has offset `Some(0)`. */
  function IsoFormat(d: DateTime, offset: Option<int>): string
  {
    IsoFormatNaive(d) + (if offset.Some? then OffsetText(offset.value) else "")
  }

  /** `d.strftime('%Y-%m-%dT%H:%M:%S.%f')`. */
  function StrftimeFormat(d: DateTime): string
  {
    DateText(d) + ClockText(d) + "." + Pad(d.micro, 6)
  }

  // ---------------------------------------------------------------------------
  // Round trips

  lemma FixedPad(n: nat, w: nat, rest: string)
    requires n < Pow10(w)
    ensures Fixed(Pad(n, w) + rest, w) == Some(Scan(n, rest))
  {
    var s := Pad(n, w) + rest;
    assert s[..w] == Pad(n, w);
    assert s[w..] == rest;
    PadValue(n, w);
  }

  lemma ExpectCons(c: char, rest: string)
    ensures Expect([c] + rest, c) == Some(rest)
    ensures ExpectIgnoreCase([c] + rest, c) == Some(rest)
  {
    assert ([c] + rest)[1..] == rest;
  }

  lemma IsoDateOf(d: DateTime, rest: string)
    requires ValidDateTime(d)
    ensures IsoDate(DateText(d) + rest) == Some(Fields(d.year, d.month, d.day, rest))
  {
    var p2 := Pad(d.day, 2) + rest;
    var p1 := Pad(d.month, 2) + ("-" + p2);
    assert DateText(d) + rest == Pad(d.year, 4) + ("-" + p1);
    FixedPad(d.year, 4, "-" + p1);
    ExpectCons('-', p1);
    FixedPad(d.month, 2, "-" + p2);
    ExpectCons('-', p2);
    FixedPad(d.day, 2, rest);
  }

  lemma IsoClockOf(d: DateTime, rest: string)
    requires ValidDateTime(d)
    ensures IsoClock(ClockText(d) + rest) == Some(Fields(d.hour, d.minute, d.second, rest))
  {
    var p2 := Pad(d.second, 2) + rest;
    var p1 := Pad(d.minute, 2) + (":" + p2);
    var p0 := Pad(d.hour, 2) + (":" + p1);
    assert ClockText(d) + rest == "T" + p0;
    ExpectCons('T', p0);
    FixedPad(d.hour, 2, ":" + p1);
    ExpectCons(':', p1);
    FixedPad(d.minute, 2, ":" + p2);
    ExpectCons(':', p2);
    FixedPad(d.second, 2, rest);
  }

  lemma {:induction false} DigitRunTail(p: string, rest: string)
    requires IsDigits(p) && (rest == [] || !IsDigit(rest[0]))
    ensures DigitRun(p + rest) == |p|
  {
    if p != [] {
      assert (p + rest)[1..] == p[1..] + rest;
      DigitRunTail(p[1..], rest);
    } else {
      assert p + rest == rest;
    }
  }

  lemma IsoFractionOf(d: DateTime, rest: string)
    requires ValidDateTime(d)
    requires rest == [] || rest[0] == '+' || rest[0] == '-'
    ensures IsoFraction(FractionText(d) + rest) == Some(Scan(d.micro, rest))
  {
    if d.micro != 0 {
      PadValue(d.micro, 6);
      FractionOfDigits(Pad(d.micro, 6), rest);
    } else {
      assert FractionText(d) + rest == rest;
    }
  }

  /** Six digits after a `.`, followed by a zone or nothing, read as their value. */
  lemma FractionOfDigits(p: string, rest: string)
    requires |p| == 6 && IsDigits(p)
    requires rest == [] || rest[0] == '+' || rest[0] == '-'
    ensures IsoFraction("." + p + rest) == Some(Scan(Value(p), rest))
  {
    var s := "." + p + rest;
    assert s[1..] == p + rest;
    DigitRunTail(p, rest);
    assert s[1..][..6] == p;
    assert s[1..][6..] == rest;
    assert p[..6] == p;
  }

  lemma ZoneShape(sign: char, hh: string, mm: string)
    requires |hh| == 2 && |mm| == 2
    ensures var z := [sign] + hh + ":" + mm;
      |z| == 6 && z[0] == sign && z[3] == ':' && z[1..3] == hh && z[4..] == mm && z != "Z"
  {
  }

  lemma IsoOffsetOfZone(sign: char, h: nat, m: nat)
    requires (sign == '+' || sign == '-') && h < 24 && m < 60
    ensures IsoOffset([sign] + Pad(h, 2) + ":" + Pad(m, 2)) == Some(Some(if sign == '+' then h * 60 + m else -(h * 60 + m)))
  {
    assert Pow10(2) == 100;
    PadValue(h, 2);
    PadValue(m, 2);
    ZoneValue(sign, Pad(h, 2), Pad(m, 2));
  }

  /** A designator made of a sign and two two-digit fields reads as their minutes, when they are in range. */
  lemma ZoneValue(sign: char, hh: string, mm: string)
    requires (sign == '+' || sign == '-') && |hh| == 2 && |mm| == 2 && IsDigits(hh) && IsDigits(mm)
    requires Value(hh) < 24 && Value(mm) < 60
    ensures var h, m := Value(hh), Value(mm);
      IsoOffset([sign] + hh + ":" + mm) == Some(Some(if sign == '+' then h * 60 + m else -(h * 60 + m)))
  {
    ZoneShape(sign, hh, mm);
  }

  lemma IsoOffsetOf(offset: Option<int>)
    requires offset.Some? ==> -1440 < offset.value < 1440
    ensures IsoOffset(if offset.Some? then OffsetText(offset.value) else "") == Some(offset)
  {
    if offset.Some? {
      var o := offset.value;
      var a := if o < 0 then -o else o;
      var h, m := a / 60, a % 60;
      assert h * 60 + m == a && h < 24 && m < 60;
      var sign := if o < 0 then '-' else '+';
      assert OffsetText(o) == [sign] + Pad(h, 2) + ":" + Pad(m, 2);
      IsoOffsetOfZone(sign, h, m);
    }
  }

  /** Reading back what `isoformat` wrote gives the same wall clock and offset. */
  lemma IsoFormatRoundTrip(d: DateTime, offset: Option<int>)
    requires ValidStamp(Stamp(d, offset))
    ensures FromIsoFormat(IsoFormat(d, offset)) == Some(Stamp(d, offset))
  {
    var zone := if offset.Some? then OffsetText(offset.value) else "";
    var tail := FractionText(d) + zone;
    assert IsoFormat(d, offset) == DateText(d) + (ClockText(d) + tail);
    IsoDateOf(d, ClockText(d) + tail);
    IsoClockOf(d, tail);
    IsoFractionOf(d, zone);
    IsoOffsetOf(offset);
    IsoPieces(IsoFormat(d, offset), ClockText(d) + tail, tail, zone, d, offset);
  }

  /** `fromisoformat` reads the date, the clock, the fraction and the zone in turn. */
  lemma IsoPieces(s: string, afterDate: string, afterClock: string, afterFraction: string, d: DateTime, offset: Option<int>)
    requires ValidStamp(Stamp(d, offset))
    requires IsoDate(s) == Some(Fields(d.year, d.month, d.day, afterDate))
    requires IsoClock(afterDate) == Some(Fields(d.hour, d.minute, d.second, afterClock))
    requires IsoFraction(afterClock) == Some(Scan(d.micro, afterFraction))
    requires IsoOffset(afterFraction) == Some(offset)
    ensures FromIsoFormat(s) == Some(Stamp(d, offset))
  {
  }

  lemma ShortPad(n: nat, rest: string)
    requires n < 100 && |rest| > 0 && !IsDigit(rest[0])
    ensures Short(Pad(n, 2) + rest) == Some(Scan(n, rest))
  {
    DigitRunTail(Pad(n, 2), rest);
    FixedPad(n, 2, rest);
  }

  lemma StrptimeDateOf(d: DateTime, rest: string)
    requires ValidDateTime(d) && |rest| > 0 && !IsDigit(rest[0])
    ensures StrptimeDate(DateText(d) + rest) == Some(Fields(d.year, d.month, d.day, rest))
  {
    var p2 := Pad(d.day, 2) + rest;
    var p1 := Pad(d.month, 2) + ("-" + p2);
    assert DateText(d) + rest == Pad(d.year, 4) + ("-" + p1);
    FixedPad(d.year, 4, "-" + p1);
    ExpectCons('-', p1);
    ShortPad(d.month, "-" + p2);
    ExpectCons('-', p2);
    ShortPad(d.day, rest);
  }

  lemma StrptimeClockOf(d: DateTime, rest: string)
    requires ValidDateTime(d) && |rest| > 0 && !IsDigit(rest[0])
    ensures StrptimeClock(ClockText(d) + rest) == Some(Fields(d.hour, d.minute, d.second, rest))
  {
    var p2 := Pad(d.second, 2) + rest;
    var p1 := Pad(d.minute, 2) + (":" + p2);
    var p0 := Pad(d.hour, 2) + (":" + p1);
    assert ClockText(d) + rest == "T" + p0;
    ExpectCons('T', p0);
    ShortPad(d.hour, ":" + p1);
    ExpectCons(':', p1);
    ShortPad(d.minute, ":" + p2);
    ExpectCons(':', p2);
    ShortPad(d.second, rest);
  }

  lemma StrptimeFractionOf(micro: nat)
    requires micro < 1000000
    ensures StrptimeFraction("." + Pad(micro, 6)) == Some(micro)
  {
    ExpectCons('.', Pad(micro, 6));
    DigitRunTail(Pad(micro, 6), []);
    assert Pad(micro, 6) + [] == Pad(micro, 6);
    assert Pad(micro, 6)[..6] == Pad(micro, 6);
    PadValue(micro, 6);
  }

  /** Reading back what `strftime('%Y-%m-%dT%H:%M:%S.%f')` wrote gives the same datetime. */
  lemma StrftimeRoundTrip(d: DateTime)
    requires ValidDateTime(d)
    ensures Strptime(StrftimeFormat(d)) == Some(d)
  {
    var frac := "." + Pad(d.micro, 6);
    assert StrftimeFormat(d) == DateText(d) + (ClockText(d) + frac);
    StrptimeDateOf(d, ClockText(d) + frac);
    StrptimeClockOf(d, frac);
    StrptimeFractionOf(d.micro);
  }

  /** `pd.to_datetime(utc=True)` honours the offset `isoformat` wrote. */
  lemma ParseUtcOfIsoFormat(d: DateTime, offset: Option<int>)
    requires ValidStamp(Stamp(d, offset))
    ensures ParseUtc(IsoFormat(d, offset)) == Some(UtcMicros(Stamp(d, offset)))
  {
    IsoFormatRoundTrip(d, offset);
  }
}
