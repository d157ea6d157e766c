/** Time of day: the "%H:%M" parsing of _parse_time_value, the next-trigger
    computation of _seconds_until and the interval guard of
    run_interval_loop (main.py). The wall clock is an integer count of
    seconds, passed in; sub-second precision is not modelled. */
module Clock {
  import opened Wrappers
  import opened Text

  const Day: int := 86400

  datatype TimeOfDay = TimeOfDay(hour: int, minute: int)

  predicate Valid(t: TimeOfDay) {
    0 <= t.hour < 24 && 0 <= t.minute < 60
  }

  /** Seconds from midnight to the time (a datetime.time with zero seconds). */
  function SecondOfDay(t: TimeOfDay): (r: int)
    requires Valid(t)
    ensures 0 <= r < Day && r % 60 == 0
  {
    t.hour * 3600 + t.minute * 60
  }

  /** The text strptime's %H accepts: one digit, or two digits up to 23. */
  predicate HourField(h: string) {
    || (|h| == 1 && IsDigit(h[0]))
    || (|h| == 2 && IsDigit(h[0]) && IsDigit(h[1]) && (h[0] <= '1' || (h[0] == '2' && h[1] <= '3')))
  }

  /** The text strptime's %M accepts: one digit, or two digits up to 59. */
  predicate MinuteField(m: string) {
    || (|m| == 1 && IsDigit(m[0]))
    || (|m| == 2 && '0' <= m[0] <= '5' && IsDigit(m[1]))
  }

  /** The number one or two digits denote. */
  function FieldValue(f: string): (r: int)
    requires 1 <= |f| <= 2 && IsDigit(f[0]) && IsDigit(f[|f| - 1])
    ensures 0 <= r < 100
  {
    if |f| == 1 then DigitValue(f[0]) else DigitValue(f[0]) * 10 + DigitValue(f[1])
  }

  /** datetime.strptime(s, "%H:%M").time(): the whole text must be an hour
      field, a colon and a minute field; None where strptime raises. */
  function ParseClock(s: string): (r: Option<TimeOfDay>)
    ensures r.Some? ==> Valid(r.value)
  {
    match IndexOf(s, ':')
    case None => None
    case Some(i) =>
      var h := s[..i];
      var m := s[i + 1..];
      if HourField(h) && MinuteField(m) then Some(TimeOfDay(FieldValue(h), FieldValue(m))) else None
  }

  /** Two decimal digits. */
  function Pad2(n: int): (r: string)
    requires 0 <= n < 100
    ensures |r| == 2 && IsDigit(r[0]) && IsDigit(r[1])
  {
    [DigitChar(n / 10), DigitChar(n % 10)]
  }

  /** The ways to write an hour or minute value n that strptime accepts:
      two digits, and one digit when n < 10. */
  function FieldSpellings(n: int): set<string>
    requires 0 <= n < 100
  {
    {Pad2(n)} + (if n < 10 then {[DigitChar(n)]} else {})
  }

  /** Every text that denotes the time t. */
  function Spellings(t: TimeOfDay): set<string>
    requires Valid(t)
  {
    set h, m | h in FieldSpellings(t.hour) && m in FieldSpellings(t.minute) :: h + ":" + m
  }

  const FormatError := " must be in HH:MM 24-hour format"

  /** _parse_time_value: the parsed time, or an error naming the setting. */
  function ParseTimeValue(value: string, name: string): (r: Result<TimeOfDay, string>)
    ensures r.Success? <==> ParseClock(value).Some?
    ensures r.Success? ==> Valid(r.value) && ParseClock(value) == Some(r.value)
    ensures r.Failure? ==> r.error == name + FormatError
  {
    match ParseClock(value)
    case Some(t) => Success(t)
    case None => Failure(name + FormatError)
  }

  lemma FieldSpelled(f: string)
    requires 1 <= |f| <= 2 && IsDigit(f[0]) && IsDigit(f[|f| - 1])
    ensures f in FieldSpellings(FieldValue(f))
  {
    var n := FieldValue(f);
    if |f| == 2 {
      assert Pad2(n) == f;
    } else {
      assert [DigitChar(n)] == f;
    }
  }

  /** The colon in a spelling sits right after the hour field. */
  lemma SpellingSplits(h: string, m: string)
    requires 1 <= |h| <= 2 && IsDigit(h[0]) && IsDigit(h[|h| - 1])
    ensures IndexOf(h + ":" + m, ':') == Some(|h|)
    ensures (h + ":" + m)[..|h|] == h && (h + ":" + m)[|h| + 1..] == m
  {
    var s := h + ":" + m;
    assert s[|h|] == ':';
    assert ':' !in s[..|h|] by {
      assert s[..|h|] == h;
    }
    IndexOfAt(s, ':', |h|);
  }

  lemma ParseSpelling(t: TimeOfDay, h: string, m: string)
    requires Valid(t) && h in FieldSpellings(t.hour) && m in FieldSpellings(t.minute)
    ensures ParseClock(h + ":" + m) == Some(t)
  {
    FieldSpellingValue(t.hour, h);
    FieldSpellingValue(t.minute, m);
    SpellingSplits(h, m);
  }

  /** A spelling of n is one or two digits denoting n, and a field strptime
      accepts when n is an hour or a minute. */
  lemma FieldSpellingValue(n: int, f: string)
    requires 0 <= n < 100 && f in FieldSpellings(n)
    ensures 1 <= |f| <= 2 && IsDigit(f[0]) && IsDigit(f[|f| - 1]) && FieldValue(f) == n
    ensures n < 24 ==> HourField(f)
    ensures n < 60 ==> MinuteField(f)
  {
  }

  /** Exactly the spellings of valid times parse, each to the time it spells:
      "HH:MM", and also "H:MM", "HH:M" and "H:M" for values below ten. */
  lemma ParseClockSpellings(s: string, t: TimeOfDay)
    ensures ParseClock(s) == Some(t) <==> Valid(t) && s in Spellings(t)
  {
    if ParseClock(s) == Some(t) {
      var i := IndexOf(s, ':').value;
      var h := s[..i];
      var m := s[i + 1..];
      FieldSpelled(h);
      FieldSpelled(m);
      assert s == h + ":" + m;
    }
    if Valid(t) && s in Spellings(t) {
      var h, m :| h in FieldSpellings(t.hour) && m in FieldSpellings(t.minute) && s == h + ":" + m;
      ParseSpelling(t, h, m);
    }
  }

  /** "HH:MM" with two-digit fields: what the default settings use. */
  function Format(t: TimeOfDay): string
    requires Valid(t)
  {
    Pad2(t.hour) + ":" + Pad2(t.minute)
  }

  lemma ParseFormat(t: TimeOfDay)
    requires Valid(t)
    ensures ParseClock(Format(t)) == Some(t)
  {
    ParseSpelling(t, Pad2(t.hour), Pad2(t.minute));
  }

  /** _seconds_until at clock time now (seconds since some midnight): the
      wait until the next occurrence of the target, today when it is still
      strictly ahead, otherwise tomorrow; and that occurrence's clock time. */
  function SecondsUntil(now: int, target: TimeOfDay): (r: (int, int))
    requires Valid(target)
    ensures var (wait, at) := r;
            && 0 < wait <= Day
            && at == now + wait
            && at % Day == SecondOfDay(target)
            && (wait < Day - now % Day <==> SecondOfDay(target) > now % Day)
  {
    var today := now - now % Day + SecondOfDay(target);
    var at := if today <= now then today + Day else today;
    DayOffset(now, if today <= now then 1 else 0, SecondOfDay(target));
    (at - now, at)
  }

  /** Midnight of the day now falls in, k days on, plus s seconds, is s
      seconds into its day. */
  lemma DayOffset(now: int, k: int, s: int)
    requires 0 <= s < Day
    ensures (now - now % Day + k * Day + s) % Day == s
  {
    ModShift(s, now / Day + k);
  }

  /** The wait is the shortest one: no earlier clock time after now falls
      on the target time of day. */
  lemma SecondsUntilIsNext(now: int, target: TimeOfDay, w: int)
    requires Valid(target) && 0 < w && (now + w) % Day == SecondOfDay(target)
    ensures SecondsUntil(now, target).0 <= w
  {
    var base := now - now % Day;
    assert base == (now / Day) * Day;
    var x := now + w;
    if w < SecondsUntil(now, target).0 {
      if x < base + Day {
        ModShift(x - base, now / Day);
      } else {
        ModShift(x - base - Day, now / Day + 1);
      }
    }
  }

  lemma ModShift(r: int, k: int)
    requires 0 <= r < Day
    ensures (k * Day + r) % Day == r
  {
  }

  const IntervalError := "interval_minutes must be > 0"

  /** The guard of run_interval_loop: a positive interval in minutes gives
      the sleep between runs in seconds; anything else is an error. */
  function IntervalSeconds(minutes: int): (r: Result<int, string>)
    ensures r.Failure? <==> minutes <= 0
    ensures r.Failure? ==> r.error == IntervalError
    ensures r.Success? ==> r.value > 0 && r.value % 60 == 0 && r.value / 60 == minutes
  {
    if minutes <= 0 then Failure(IntervalError) else Success(minutes * 60)
  }
}
