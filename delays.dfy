/**
 * Per-record delay extraction: `calculate_delay` (analyze_experiments.py).
 * A delay is reception minus origination, in milliseconds; it is `None` when a
 * field is missing or the timestamps cannot be parsed or subtracted.
 */
module Delays {
  import opened Common
  import opened Text
  import opened Timestamps

  /** `s.split('+')[0].split('Z')[0]`: everything from the first `+` or `Z` on is dropped. */
  function StripZone(s: string): (r: string)
    ensures '+' !in r && 'Z' !in r
  {
    var a := Before(s, '+');
    var b := Before(a, 'Z');
    assert b == a[..|b|];
    b
  }

  /** Microseconds to milliseconds, exactly; `total_seconds() * 1000` computes the same ratio in floating point. */
  function Ms(micros: int): real
  {
    micros as real / 1000.0
  }

  /** `b - a` in microseconds, or `None` where Python raises `TypeError` (one naive, one aware). */
  function StampDifference(a: Stamp, b: Stamp): Option<int>
    requires ValidStamp(a) && ValidStamp(b)
  {
    if a.offset.Some? != b.offset.Some? then None else Some(UtcMicros(b) - UtcMicros(a))
  }

  /** The two parse attempts on stripped texts: `fromisoformat` on both, else `strptime` on both. */
  function StrippedDifference(ts: string, rt: string): Option<int>
  {
    var a, b := FromIsoFormat(ts), FromIsoFormat(rt);
    if a.Some? && b.Some? then StampDifference(a.value, b.value)
    else
      NaiveDifference(Strptime(ts), Strptime(rt))
  }

  /** `d - c` in microseconds for two `strptime` results, `None` when either text did not match. */
  function NaiveDifference(c: Option<DateTime>, d: Option<DateTime>): (r: Option<int>)
    requires c.Some? ==> ValidDateTime(c.value)
    requires d.Some? ==> ValidDateTime(d.value)
    ensures r.Some? <==> c.Some? && d.Some?
  {
    if c.Some? && d.Some? then Some(Micros(d.value) - Micros(c.value)) else None
  }

  /** `calculate_delay(row)` for a row whose `timestamp` and `receive_time` cells are given (`None` when absent). */
  function CalculateDelay(timestamp: Option<string>, receiveTime: Option<string>): (r: Option<real>)
    ensures timestamp.None? || receiveTime.None? ==> r.None?
  {
    if timestamp.None? || receiveTime.None? then None
    else
      var micros := StrippedDifference(StripZone(timestamp.value), StripZone(receiveTime.value));
      if micros.Some? then Some(Ms(micros.value)) else None
  }

  lemma StripZonePlain(s: string)
    requires '+' !in s && 'Z' !in s
    ensures StripZone(s) == s
  {
  }

  lemma BeforeAt(a: string, c: char, rest: string)
    requires c !in a
    ensures Before(a + [c] + rest, c) == a
  {
    IndexOfAfterPrefix(a, c, rest);
    assert (a + [c] + rest)[..|a|] == a;
  }

  /** A `+...` or `Z...` tail after a plain timestamp is cut off entirely. */
  lemma StripZoneDropsSuffix(s: string, c: char, tail: string)
    requires '+' !in s && 'Z' !in s && (c == '+' || c == 'Z')
    ensures StripZone(s + [c] + tail) == s
  {
    var t := s + [c] + tail;
    if c == '+' {
      BeforeAt(s, '+', tail);
    } else {
      assert '+' !in s + [c];
      assert Before(t, '+') == (s + [c]) + Before(tail, '+') by {
        var i := IndexOf(tail, '+');
        assert IndexOf(t, '+') == |s| + 1 + i by { IndexOfShift(s + [c], tail, '+'); }
        assert t[..|s| + 1 + i] == (s + [c]) + tail[..i];
      }
      BeforeAt(s, 'Z', Before(tail, '+'));
    }
  }

  lemma {:induction false} IndexOfShift(p: string, tail: string, c: char)
    requires c !in p
    ensures IndexOf(p + tail, c) == |p| + IndexOf(tail, c)
  {
    if p != [] {
      assert (p + tail)[1..] == p[1..] + tail;
      IndexOfShift(p[1..], tail, c);
    } else {
      assert p + tail == tail;
    }
  }

  /** The delay depends only on the stripped texts; stripping twice changes nothing. */
  lemma DelayIgnoresZoneSuffix(ts: string, rt: string)
    ensures StripZone(StripZone(ts)) == StripZone(ts)
    ensures CalculateDelay(Some(ts), Some(rt)) == CalculateDelay(Some(StripZone(ts)), Some(StripZone(rt)))
  {
    StripZonePlain(StripZone(ts));
    StripZonePlain(StripZone(rt));
  }

  /** Timestamps that differ only after their first `+` or `Z` give the same delay. */
  lemma SameDelayWhateverSuffix(ts: string, rt: string, c1: char, tail1: string, c2: char, tail2: string)
    requires '+' !in ts && 'Z' !in ts && '+' !in rt && 'Z' !in rt
    requires (c1 == '+' || c1 == 'Z') && (c2 == '+' || c2 == 'Z')
    ensures CalculateDelay(Some(ts + [c1] + tail1), Some(rt + [c2] + tail2)) == CalculateDelay(Some(ts), Some(rt))
  {
    StripZoneDropsSuffix(ts, c1, tail1);
    StripZoneDropsSuffix(rt, c2, tail2);
    StripZonePlain(ts);
    StripZonePlain(rt);
  }

  /** The offset that survives stripping: a `-HH:MM` one; a `+HH:MM` one is cut off. */
  function KeptOffset(offset: Option<int>): Option<int>
  {
    if offset.Some? && offset.value < 0 then offset else None
  }

  lemma PadPlain(n: nat, w: nat)
    ensures '+' !in Pad(n, w) && 'Z' !in Pad(n, w)
  {
    var p := Pad(n, w);
    forall i | 0 <= i < |p| ensures p[i] != '+' && p[i] != 'Z' {
      assert IsDigit(p[i]);
    }
  }

  lemma IsoFormatNaivePlain(d: DateTime)
    ensures '+' !in IsoFormatNaive(d) && 'Z' !in IsoFormatNaive(d)
  {
    assert '+' !in DateText(d) && 'Z' !in DateText(d) by {
      PadPlain(d.year, 4);
      PadPlain(d.month, 2);
      PadPlain(d.day, 2);
    }
    assert '+' !in ClockText(d) && 'Z' !in ClockText(d) by {
      PadPlain(d.hour, 2);
      PadPlain(d.minute, 2);
      PadPlain(d.second, 2);
    }
    assert '+' !in FractionText(d) && 'Z' !in FractionText(d) by {
      PadPlain(d.micro, 6);
    }
    assert IsoFormatNaive(d) == DateText(d) + ClockText(d) + FractionText(d);
  }

  /** What `StripZone` leaves of an `isoformat` text: the same text with only a negative offset kept. */
  lemma StripZoneOfIsoFormat(d: DateTime, offset: Option<int>)
    ensures StripZone(IsoFormat(d, offset)) == IsoFormat(d, KeptOffset(offset))
  {
    var naive := IsoFormatNaive(d);
    IsoFormatNaivePlain(d);
    if offset.Some? && offset.value >= 0 {
      var o := offset.value;
      assert IsoFormat(d, offset) == naive + ['+'] + (Pad(o / 60, 2) + ":" + Pad(o % 60, 2));
      StripZoneDropsSuffix(naive, '+', Pad(o / 60, 2) + ":" + Pad(o % 60, 2));
    } else if offset.Some? {
      var a := -offset.value;
      PadPlain(a / 60, 2);
      PadPlain(a % 60, 2);
      assert '+' !in OffsetText(offset.value) && 'Z' !in OffsetText(offset.value);
      StripZonePlain(IsoFormat(d, offset));
    } else {
      StripZonePlain(naive);
    }
  }

  lemma StrippedDifferenceIso(ts: string, rt: string, a: Stamp, b: Stamp)
    requires FromIsoFormat(ts) == Some(a) && FromIsoFormat(rt) == Some(b)
    ensures ValidStamp(a) && ValidStamp(b)
    ensures StrippedDifference(ts, rt) == StampDifference(a, b)
  {
  }

  lemma DelayOfDifference(ts: string, rt: string, x: Option<int>)
    requires StrippedDifference(StripZone(ts), StripZone(rt)) == x
    ensures CalculateDelay(Some(ts), Some(rt)) == if x.Some? then Some(Ms(x.value)) else None
  {
  }

  /** The delay between two parsed stamps, in milliseconds: `None` exactly when one is naive and the other aware. */
  function StampDelay(a: Stamp, b: Stamp): (r: Option<real>)
    requires ValidStamp(a) && ValidStamp(b)
    ensures r.None? <==> a.offset.Some? != b.offset.Some?
    ensures r.Some? ==> r.value == Ms(UtcMicros(b) - UtcMicros(a))
  {
    var x := StampDifference(a, b);
    if x.Some? then Some(Ms(x.value)) else None
  }

  /** When both stripped texts parse as ISO timestamps, the delay is that of the parsed stamps. */
  lemma DelayOfParsed(ts: string, rt: string, a: Stamp, b: Stamp)
    requires FromIsoFormat(StripZone(ts)) == Some(a) && FromIsoFormat(StripZone(rt)) == Some(b)
    ensures ValidStamp(a) && ValidStamp(b)
    ensures CalculateDelay(Some(ts), Some(rt)) == StampDelay(a, b)
  {
    StrippedDifferenceIso(StripZone(ts), StripZone(rt), a, b);
    DelayOfDifference(ts, rt, StampDifference(a, b));
  }

  /** What `StripZone` leaves of an `isoformat` text parses back to the wall clock and the kept offset. */
  lemma StrippedIsoFormatParses(d: DateTime, offset: Option<int>)
    requires ValidStamp(Stamp(d, offset))
    ensures FromIsoFormat(StripZone(IsoFormat(d, offset))) == Some(Stamp(d, KeptOffset(offset)))
  {
    StripZoneOfIsoFormat(d, offset);
    IsoFormatRoundTrip(d, KeptOffset(offset));
  }

  /**
   * The delay between two timestamps written by `isoformat` is that of the
   * stamps they denote once `+HH:MM` offsets are cut off: `None` when exactly
   * one of them keeps a `-HH:MM` offset (naive minus aware), otherwise the
   * exact difference of the instants, negative when the reception is earlier.
   */
  lemma DelayOfIsoFormats(d1: DateTime, o1: Option<int>, d2: DateTime, o2: Option<int>)
    requires ValidStamp(Stamp(d1, o1)) && ValidStamp(Stamp(d2, o2))
    ensures ValidStamp(Stamp(d1, KeptOffset(o1))) && ValidStamp(Stamp(d2, KeptOffset(o2)))
    ensures CalculateDelay(Some(IsoFormat(d1, o1)), Some(IsoFormat(d2, o2))) ==
            StampDelay(Stamp(d1, KeptOffset(o1)), Stamp(d2, KeptOffset(o2)))
  {
    StrippedIsoFormatParses(d1, o1);
    StrippedIsoFormatParses(d2, o2);
    DelayOfParsed(IsoFormat(d1, o1), IsoFormat(d2, o2), Stamp(d1, KeptOffset(o1)), Stamp(d2, KeptOffset(o2)));
  }

  /** Two naive stamps are subtracted as UTC instants; the delay is negative exactly when the reception is earlier. */
  lemma NaiveStampDelay(sent: DateTime, received: DateTime)
    requires ValidDateTime(sent) && ValidDateTime(received)
    ensures StampDelay(Stamp(sent, None), Stamp(received, None)) == Some(Ms(Micros(received) - Micros(sent)))
    ensures Ms(Micros(received) - Micros(sent)) < 0.0 <==> Micros(received) < Micros(sent)
  {
  }

  /** Readings stamped with `datetime.now(UTC).isoformat()` on both ends give the exact wall-clock difference. */
  lemma DelayOfUtcStamps(sent: DateTime, received: DateTime)
    requires ValidDateTime(sent) && ValidDateTime(received)
    ensures CalculateDelay(Some(IsoFormat(sent, Some(0))), Some(IsoFormat(received, Some(0)))) ==
            Some(Ms(Micros(received) - Micros(sent)))
  {
    DelayOfIsoFormats(sent, Some(0), received, Some(0));
    NaiveStampDelay(sent, received);
  }

  lemma ConflatedDelay(d: DateTime)
    requires ValidDateTime(d)
    ensures CalculateDelay(Some(IsoFormat(d, Some(60))), Some(IsoFormat(d, Some(0)))) == Some(0.0)
  {
    DelayOfIsoFormats(d, Some(60), d, Some(0));
    NaiveStampDelay(d, d);
  }

  lemma HourApart(d: DateTime)
    requires ValidDateTime(d)
    ensures UtcMicros(Stamp(d, Some(0))) - UtcMicros(Stamp(d, Some(60))) == 3600000000
  {
  }

  /**
   * Stripping `+HH:MM` conflates zones: the same wall clock read at `+01:00` and
   * at `+00:00` gives a zero delay although the instants they denote (which
   * `ParseUtc` returns, by `ParseUtcOfIsoFormat`) lie an hour apart.
   */
  lemma PositiveOffsetsConflated(d: DateTime)
    requires ValidDateTime(d)
    ensures CalculateDelay(Some(IsoFormat(d, Some(60))), Some(IsoFormat(d, Some(0)))) == Some(0.0)
    ensures UtcMicros(Stamp(d, Some(0))) - UtcMicros(Stamp(d, Some(60))) == 3600000000
  {
    ConflatedDelay(d);
    HourApart(d);
  }

  /**
   * When one stripped text is not an ISO timestamp but both match the
   * `strptime` format, the delay is that of the two wall clocks read as naive
   * stamps, which `NaiveStampDelay` gives as their plain difference.
   */
  lemma DelayOfFallback(ts: string, rt: string, c: DateTime, d: DateTime)
    requires FromIsoFormat(StripZone(ts)).None? || FromIsoFormat(StripZone(rt)).None?
    requires Strptime(StripZone(ts)) == Some(c) && Strptime(StripZone(rt)) == Some(d)
    ensures ValidDateTime(c) && ValidDateTime(d)
    ensures CalculateDelay(Some(ts), Some(rt)) == StampDelay(Stamp(c, None), Stamp(d, None))
    ensures CalculateDelay(Some(ts), Some(rt)) == Some(Ms(Micros(d) - Micros(c)))
  {
    StrippedDifferenceFallback(StripZone(ts), StripZone(rt), c, d);
    NaiveDifferenceDelay(c, d);
    DelayOfDifference(ts, rt, NaiveDifference(Some(c), Some(d)));
    NaiveStampDelay(c, d);
  }

  lemma StrippedDifferenceFallback(ts: string, rt: string, c: DateTime, d: DateTime)
    requires FromIsoFormat(ts).None? || FromIsoFormat(rt).None?
    requires Strptime(ts) == Some(c) && Strptime(rt) == Some(d)
    ensures ValidDateTime(c) && ValidDateTime(d)
    ensures StrippedDifference(ts, rt) == NaiveDifference(Some(c), Some(d))
  {
  }

  lemma NaiveDifferenceDelay(c: DateTime, d: DateTime)
    requires ValidDateTime(c) && ValidDateTime(d)
    ensures var x := NaiveDifference(Some(c), Some(d));
      x.Some? && StampDelay(Stamp(c, None), Stamp(d, None)) == Some(Ms(x.value))
  {
  }

  /** A `timestamp` that neither parser accepts once stripped yields no delay, whatever the reception time. */
  lemma UnparsedHasNoDelay(ts: string, receiveTime: Option<string>)
    requires FromIsoFormat(StripZone(ts)).None? && Strptime(StripZone(ts)).None?
    ensures CalculateDelay(Some(ts), receiveTime) == None
  {
  }

  /** The literal `not-a-date` is such a `timestamp`: it does not start with a digit. */
  lemma NotADateHasNoDelay(receiveTime: Option<string>)
    ensures CalculateDelay(Some("not-a-date"), receiveTime) == None
  {
    var ts := "not-a-date";
    assert !IsDigit(ts[0]);
    StripZonePlain(ts);
    NoDateWithoutLeadingDigit(ts);
    UnparsedHasNoDelay(ts, receiveTime);
  }

  lemma NoDateWithoutLeadingDigit(s: string)
    requires |s| > 0 && !IsDigit(s[0])
    ensures FromIsoFormat(s) == None && Strptime(s) == None
  {
    assert Fixed(s, 4) == None by {
      if 4 <= |s| {
        assert s[..4][0] == s[0];
      }
    }
  }
}
