/** Python's `datetime` as the schedule uses it: times of day with microsecond
    precision, weekdays, durations in microseconds, and the ISO time-of-day
    text that `datetime.time.fromisoformat` reads. */
module Time {
  import opened Wrappers

  const MicrosPerSecond: int := 1_000_000
  const MicrosPerDay: int := 86_400 * MicrosPerSecond

  /** A `datetime.time` without time zone, as microseconds since midnight;
      its order is the order of `datetime.time`. */
  type TimeOfDay = t: int | 0 <= t < MicrosPerDay

  /** `datetime.weekday()`: Monday is 0, Sunday is 6. */
  type Weekday = d: int | 0 <= d < 7

  /** What `datetime.datetime.now()` tells the schedule. */
  datatype Instant = Instant(weekday: Weekday, time: TimeOfDay)

  /** `datetime.timedelta.max` (999999999 days, 23:59:59.999999) in microseconds. */
  const MaxDuration: int := 999_999_999 * MicrosPerDay + MicrosPerDay - 1

  /** `datetime.time(hour, minute, second, microsecond)`: None where the
      constructor raises ValueError for an out-of-range field. */
  function TimeOf(hour: int, minute: int, second: int, micro: int): (r: Option<TimeOfDay>)
    ensures r.Some? <==> 0 <= hour < 24 && 0 <= minute < 60 && 0 <= second < 60 && 0 <= micro < 1_000_000
    ensures r.Some? ==> r.value == ((hour * 60 + minute) * 60 + second) * 1_000_000 + micro
  {
    if 0 <= hour < 24 && 0 <= minute < 60 && 0 <= second < 60 && 0 <= micro < 1_000_000
    then Some(((hour * 60 + minute) * 60 + second) * 1_000_000 + micro)
    else None
  }

  predicate IsDigit(c: char) {
    '0' <= c <= '9'
  }

  predicate AllDigits(s: string) {
    forall i :: 0 <= i < |s| ==> IsDigit(s[i])
  }

  /** `int(s)` for a string of ASCII digits. */
  function DigitsValue(s: string): nat
    requires AllDigits(s)
  {
    if s == [] then 0
    else DigitsValue(s[..|s| - 1]) * 10 + (s[|s| - 1] as int - '0' as int)
  }

  function Pow10(n: nat): (r: nat)
    ensures r > 0
  {
    if n == 0 then 1 else 10 * Pow10(n - 1)
  }

  /** `n` written with exactly `width` digits, zero-padded on the left (the
      `%02d` / `%06d` of `time.isoformat`). */
  function Pad(n: nat, width: nat): (s: string)
    requires n < Pow10(width)
    ensures |s| == width && AllDigits(s)
  {
    if width == 0 then ""
    else Pad(n / 10, width - 1) + [('0' as int + n % 10) as char]
  }

  /** Reading a padded number gives the number back. */
  lemma {:induction false} DigitsValuePad(n: nat, width: nat)
    requires n < Pow10(width)
    ensures DigitsValue(Pad(n, width)) == n
  {
    if width > 0 {
      var s := Pad(n, width);
      DigitsValuePad(n / 10, width - 1);
      assert s[..|s| - 1] == Pad(n / 10, width - 1);
    }
  }

  /** The two characters at `i` are ASCII digits. */
  predicate DigitPair(s: string, i: nat) {
    i + 2 <= |s| && IsDigit(s[i]) && IsDigit(s[i + 1])
  }

  /** `int(s[i:i + 2])` for a digit pair. */
  function PairValue(s: string, i: nat): (n: nat)
    requires DigitPair(s, i)
    ensures n < 100
  {
    (s[i] as int - '0' as int) * 10 + (s[i + 1] as int - '0' as int)
  }

  /** `datetime.time.fromisoformat(s)` for times without a UTC offset, as the
      C parser of Python 3.7 to 3.10 reads them. Up to three two-digit fields
      (hour, minute, second) are read, each followed by the end of the text,
      a ':' before the next field, or a '.' before the fraction; a ':' after
      the third field also starts the fraction. A separator may not end the
      text. The fraction has 3 digits (milliseconds) or 6 (microseconds).
      None where it raises ValueError. */
  function FromIsoFormat(s: string): (r: Option<TimeOfDay>)
    ensures r.Some? ==> DigitPair(s, 0)
  {
    if !DigitPair(s, 0) then None
    else
      var hour := PairValue(s, 0);
      if |s| == 2 then TimeOf(hour, 0, 0, 0)
      else if |s| == 3 || (s[2] != ':' && s[2] != '.') then None
      else if s[2] == '.' then WithFraction(s[3..], hour, 0, 0)
      else if !DigitPair(s, 3) then None
      else
        var minute := PairValue(s, 3);
        if |s| == 5 then TimeOf(hour, minute, 0, 0)
        else if |s| == 6 || (s[5] != ':' && s[5] != '.') then None
        else if s[5] == '.' then WithFraction(s[6..], hour, minute, 0)
        else if !DigitPair(s, 6) then None
        else
          var second := PairValue(s, 6);
          if |s| == 8 then TimeOf(hour, minute, second, 0)
          else if |s| == 9 || (s[8] != ':' && s[8] != '.') then None
          else WithFraction(s[9..], hour, minute, second)
  }

  /** The time with the fraction `f` as its sub-second part: 3 digits are
      milliseconds, 6 are microseconds; any other fraction raises ValueError. */
  function WithFraction(f: string, hour: int, minute: int, second: int): (r: Option<TimeOfDay>)
    ensures r.Some? ==> (|f| == 3 || |f| == 6) && AllDigits(f)
  {
    if (|f| != 3 && |f| != 6) || !AllDigits(f) then None
    else TimeOf(hour, minute, second, if |f| == 3 then DigitsValue(f) * 1000 else DigitsValue(f))
  }

  /** A fraction may follow any field, after a '.' or after the third field's
      ':'; a separator may not end the text, and the fraction needs 3 or 6
      digits. */
  lemma FromIsoFormatFractionForms()
    ensures FromIsoFormat("10.500") == Some(36_000_500_000)
    ensures FromIsoFormat("10:30.500") == Some(37_800_500_000)
    ensures FromIsoFormat("10:30:00:500") == Some(37_800_500_000)
    ensures FromIsoFormat("10:") == None && FromIsoFormat("10:30.") == None
    ensures FromIsoFormat("10:30:00.5") == None
  {
    assert DigitsValue("500") == 500 by {
      assert "500"[..2] == "50" && "50"[..1] == "5" && "5"[..0] == "";
    }
    assert "10.500"[3..] == "500";
    assert "10:30.500"[6..] == "500";
    assert "10:30:00:500"[9..] == "500";
    assert "10:30:00.5"[9..] == "5";
  }

  /** The fields `isoformat` prints: hour, minute, second and microsecond of `t`. */
  function Fields(t: TimeOfDay): (f: (nat, nat, nat, nat))
    ensures f.0 < 24 && f.1 < 60 && f.2 < 60 && f.3 < MicrosPerSecond
    ensures t == ((f.0 * 60 + f.1) * 60 + f.2) * 1_000_000 + f.3
  {
    var seconds, micro := t / MicrosPerSecond, t % MicrosPerSecond;
    var minutes, second := seconds / 60, seconds % 60;
    var hour, minute := minutes / 60, minutes % 60;
    assert seconds < 86_400;
    (hour, minute, second, micro)
  }

  /** `datetime.time.isoformat()`: `HH:MM:SS`, with `.ffffff` appended when the
      microseconds are not zero. */
  function IsoFormat(t: TimeOfDay): (s: string)
    ensures |s| == 8 || |s| == 15
  {
    var f := Fields(t);
    Clock(f.0, f.1, f.2, f.3)
  }

  /** The text `isoformat` prints for the given fields. */
  function Clock(hour: nat, minute: nat, second: nat, micro: nat): (s: string)
    requires hour < 24 && minute < 60 && second < 60 && micro < MicrosPerSecond
    ensures |s| == 8 || |s| == 15
  {
    Pad(hour, 2) + ":" + Pad(minute, 2) + ":" + Pad(second, 2)
      + (if micro == 0 then "" else "." + Pad(micro, 6))
  }

  /** A two-digit padded number reads back as that number. */
  lemma PairValuePad(n: nat)
    requires n < 100
    ensures DigitPair(Pad(n, 2), 0) && PairValue(Pad(n, 2), 0) == n
  {
    var s := Pad(n, 2);
    assert s == Pad(n / 10, 1) + [('0' as int + n % 10) as char];
    assert Pad(n / 10, 1) == Pad(n / 100, 0) + [('0' as int + n / 10 % 10) as char];
  }

  /** Where the fields of `HH:MM:SS` followed by `tail` sit. */
  lemma ClockSlices(h: string, m: string, sec: string, tail: string)
    requires |h| == 2 && |m| == 2 && |sec| == 2
    ensures var s := h + ":" + m + ":" + sec + tail;
            && |s| == 8 + |tail| && s[0] == h[0] && s[1] == h[1] && s[2] == ':'
            && s[3] == m[0] && s[4] == m[1] && s[5] == ':'
            && s[6] == sec[0] && s[7] == sec[1] && s[8..] == tail
  {
  }

  /** `fromisoformat` on `HH:MM:SS` reads the digit fields as they stand. */
  lemma ReadClock(h: string, m: string, sec: string)
    requires |h| == 2 && |m| == 2 && |sec| == 2 && DigitPair(h, 0) && DigitPair(m, 0) && DigitPair(sec, 0)
    ensures FromIsoFormat(h + ":" + m + ":" + sec + "") == TimeOf(PairValue(h, 0), PairValue(m, 0), PairValue(sec, 0), 0)
  {
    ClockSlices(h, m, sec, "");
  }

  /** `fromisoformat` on `HH:MM:SS.ffffff` reads the fraction as microseconds. */
  lemma ReadClockFraction(h: string, m: string, sec: string, fraction: string)
    requires |h| == 2 && |m| == 2 && |sec| == 2 && DigitPair(h, 0) && DigitPair(m, 0) && DigitPair(sec, 0)
    requires |fraction| == 6 && AllDigits(fraction)
    ensures FromIsoFormat(h + ":" + m + ":" + sec + ("." + fraction)) ==
              TimeOf(PairValue(h, 0), PairValue(m, 0), PairValue(sec, 0), DigitsValue(fraction))
  {
    var tail := "." + fraction;
    ClockSlices(h, m, sec, tail);
    var s := h + ":" + m + ":" + sec + tail;
    assert s[8] == tail[0] == '.';
    assert s[9..] == s[8..][1..] == fraction;
    assert FromIsoFormat(s) == WithFraction(fraction, PairValue(h, 0), PairValue(m, 0), PairValue(sec, 0));
  }

  /** `fromisoformat` reads the fields back from the text printed for them. */
  lemma ClockRoundTrip(hour: nat, minute: nat, second: nat, micro: nat)
    requires hour < 24 && minute < 60 && second < 60 && micro < MicrosPerSecond
    ensures FromIsoFormat(Clock(hour, minute, second, micro)) == TimeOf(hour, minute, second, micro)
  {
    var h, m, sec := Pad(hour, 2), Pad(minute, 2), Pad(second, 2);
    PairValuePad(hour);
    PairValuePad(minute);
    PairValuePad(second);
    if micro == 0 {
      assert Clock(hour, minute, second, micro) == h + ":" + m + ":" + sec + "";
      ReadClock(h, m, sec);
    } else {
      var fraction := Pad(micro, 6);
      DigitsValuePad(micro, 6);
      assert Clock(hour, minute, second, micro) == h + ":" + m + ":" + sec + ("." + fraction);
      ReadClockFraction(h, m, sec, fraction);
    }
  }

  /** Every time of day survives `fromisoformat(t.isoformat())`. */
  lemma IsoFormatRoundTrip(t: TimeOfDay)
    ensures FromIsoFormat(IsoFormat(t)) == Some(t)
  {
    var f := Fields(t);
    assert TimeOf(f.0, f.1, f.2, f.3) == Some(t);
    ClockRoundTrip(f.0, f.1, f.2, f.3);
  }
}
