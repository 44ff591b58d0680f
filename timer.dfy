/** models/timer-model.js: the stopwatch document, its `elapsedTime` virtual (whole
    seconds, never negative) and `getFormattedTime` (HH:MM:SS). Times are epoch ms;
    the virtual reads the clock, which here is the parameter `now`. */
module TimerModel {
  import opened Wrappers
  import opened Decimal

  datatype Timer = Timer(
    sessionId: string,
    startTime: int,
    pausedAt: Option<int>,
    totalPausedTime: int,
    isRunning: bool,
    lastUpdated: int)

  /** The elapsed milliseconds before rounding: running counts up to now, paused stops at
      the pause instant, and a stopped timer with no pause instant shows nothing. */
  function RawElapsed(t: Timer, now: int): int {
    if t.isRunning then now - t.startTime - t.totalPausedTime
    else if t.pausedAt.Some? then t.pausedAt.value - t.startTime - t.totalPausedTime
    else 0
  }

  /** `Math.max(0, Math.floor(elapsed / 1000))`. */
  function ElapsedSeconds(t: Timer, now: int): (s: nat)
    ensures RawElapsed(t, now) < 1000 ==> s == 0
    ensures RawElapsed(t, now) >= 0 ==> s * 1000 <= RawElapsed(t, now) < s * 1000 + 1000
  {
    var e := RawElapsed(t, now);
    if e <= 0 then 0 else e / 1000
  }

  /** The three components of getFormattedTime. */
  datatype Clock = Clock(hours: nat, minutes: nat, seconds: nat)

  /** The seconds a clock stands for. */
  function Seconds(hours: nat, minutes: nat, seconds: nat): nat {
    hours * 3600 + minutes * 60 + seconds
  }

  function SplitSeconds(s: nat): Clock {
    Clock(s / 3600, (s % 3600) / 60, s % 60)
  }

  /** The split is exact, with minutes and seconds below 60. */
  lemma SplitSecondsExact(s: nat)
    ensures var c := SplitSeconds(s);
            Seconds(c.hours, c.minutes, c.seconds) == s && c.minutes < 60 && c.seconds < 60
  {
  }

  /** `n.toString().padStart(2, '0')`: at least two digits, more when n needs them. */
  function Pad2(n: nat): (r: string)
    ensures AllDigits(r) && DigitsValue(r) == n
    ensures |r| == if n < 10 then 2 else |NatToString(n)|
  {
    PaddedValue(n, 2);
    PadStart(NatToString(n), 2)
  }

  /** The three padded components joined with ':'. */
  function FormatClock(c: Clock): string {
    Pad2(c.hours) + ":" + Pad2(c.minutes) + ":" + Pad2(c.seconds)
  }

  function FormattedTime(t: Timer, now: int): string {
    FormatClock(SplitSeconds(ElapsedSeconds(t, now)))
  }

  // ---------------------------------------------------------------- reading the format back

  /** `s.split(c)`: the pieces between separators, one more than the separators. */
  function SplitOn(s: string, c: char): (parts: seq<string>)
    ensures |parts| >= 1
  {
    if s == [] then [""]
    else if s[0] == c then [""] + SplitOn(s[1..], c)
    else
      var rest := SplitOn(s[1..], c);
      [[s[0]] + rest[0]] + rest[1..]
  }

  lemma {:induction false} SplitOnNoSeparator(a: string, c: char)
    requires forall i :: 0 <= i < |a| ==> a[i] != c
    ensures SplitOn(a, c) == [a]
  {
    if a != [] {
      SplitOnNoSeparator(a[1..], c);
      assert [a[0]] + a[1..] == a;
    }
  }

  lemma {:induction false} SplitOnJoin(a: string, b: string, c: char)
    requires forall i :: 0 <= i < |a| ==> a[i] != c
    ensures SplitOn(a + [c] + b, c) == [a] + SplitOn(b, c)
  {
    if a == [] {
      assert a + [c] + b == [c] + b;
      assert ([c] + b)[1..] == b;
    } else {
      var s := a + [c] + b;
      assert s[0] == a[0] && s[1..] == a[1..] + [c] + b;
      SplitOnJoin(a[1..], b, c);
      assert [a[0]] + a[1..] == a;
    }
  }

  /** A clock string `H:M:S` with decimal components, optionally zero-padded, as seconds. */
  function ParseClock(f: string): (r: Option<nat>) {
    ClockValue(SplitOn(f, ':'))
  }

  /** Exactly three non-empty digit groups, as hours, minutes and seconds. */
  function ClockValue(parts: seq<string>): (r: Option<nat>) {
    if |parts| == 3 && AllDigits(parts[0]) && AllDigits(parts[1]) && AllDigits(parts[2])
       && |parts[0]| > 0 && |parts[1]| > 0 && |parts[2]| > 0
    then Some(Seconds(DigitsValue(parts[0]), DigitsValue(parts[1]), DigitsValue(parts[2])))
    else None
  }

  // ---------------------------------------------------------------- properties

  /** Three digit groups joined by ':' split back into exactly those groups. */
  lemma {:induction false} SplitClock(h: string, m: string, s: string)
    requires AllDigits(h) && AllDigits(m) && AllDigits(s)
    ensures SplitOn(h + ":" + m + ":" + s, ':') == [h, m, s]
  {
    assert forall i :: 0 <= i < |h| ==> h[i] != ':' by { assert AllDigits(h); }
    assert forall i :: 0 <= i < |m| ==> m[i] != ':' by { assert AllDigits(m); }
    assert forall i :: 0 <= i < |s| ==> s[i] != ':' by { assert AllDigits(s); }
    SplitOnNoSeparator(s, ':');
    SplitOnJoin(m, s, ':');
    SplitOnJoin(h, m + [':'] + s, ':');
    assert h + ":" + m + ":" + s == h + [':'] + (m + [':'] + s);
  }

  lemma ClockValueOfGroups(h: string, m: string, s: string)
    requires AllDigits(h) && AllDigits(m) && AllDigits(s) && |h| > 0 && |m| > 0 && |s| > 0
    ensures ClockValue([h, m, s]) == Some(Seconds(DigitsValue(h), DigitsValue(m), DigitsValue(s)))
  {
    var parts := [h, m, s];
    assert parts[0] == h && parts[1] == m && parts[2] == s;
  }

  /** Joined digit groups parse back as their clock value. */
  lemma ParseJoined(h: string, m: string, s: string)
    requires AllDigits(h) && AllDigits(m) && AllDigits(s) && |h| > 0 && |m| > 0 && |s| > 0
    ensures ParseClock(h + ":" + m + ":" + s) == Some(Seconds(DigitsValue(h), DigitsValue(m), DigitsValue(s)))
  {
    SplitClock(h, m, s);
    ClockValueOfGroups(h, m, s);
  }

  /** A formatted clock reads back as its components. */
  lemma FormatClockReadsBack(c: Clock)
    ensures ParseClock(FormatClock(c)) == Some(Seconds(c.hours, c.minutes, c.seconds))
  {
    var h, m, s := Pad2(c.hours), Pad2(c.minutes), Pad2(c.seconds);
    assert |h| >= 2 && |m| >= 2 && |s| >= 2;
    ParseJoined(h, m, s);
  }

  /** The formatted time reads back as the elapsed seconds: the components are the hours,
      the minutes below 60 and the seconds below 60 of `elapsedTime`, joined by ':'. */
  lemma FormattedTimeReadsBack(t: Timer, now: int)
    ensures ParseClock(FormattedTime(t, now)) == Some(ElapsedSeconds(t, now))
  {
    SplitSecondsExact(ElapsedSeconds(t, now));
    FormatClockReadsBack(SplitSeconds(ElapsedSeconds(t, now)));
  }

  /** Hours are never truncated: past 99 the hours field is the full decimal number. */
  lemma HoursNotTruncated(c: Clock)
    ensures FormatClock(c)[..|Pad2(c.hours)|] == Pad2(c.hours)
    ensures c.hours >= 10 ==> Pad2(c.hours) == NatToString(c.hours)
  {
    var s := NatToString(c.hours);
    if c.hours >= 10 {
      assert PadStart(s, 2) == s;
    }
  }

  /** A paused timer shows the same time whenever it is looked at. */
  lemma PausedTimeIsFrozen(t: Timer, now1: int, now2: int)
    requires !t.isRunning
    ensures ElapsedSeconds(t, now1) == ElapsedSeconds(t, now2)
    ensures FormattedTime(t, now1) == FormattedTime(t, now2)
  {
  }

  /** A stopped timer with no pause instant shows zero. */
  lemma StoppedWithoutPauseShowsZero(t: Timer, now: int)
    requires !t.isRunning && t.pausedAt.None?
    ensures ElapsedSeconds(t, now) == 0
    ensures FormattedTime(t, now) == "00:00:00"
  {
    assert SplitSeconds(0) == Clock(0, 0, 0);
    ZeroClockText();
  }

  /** Zero seconds are shown as "00:00:00". */
  lemma ZeroClockText()
    ensures FormatClock(Clock(0, 0, 0)) == "00:00:00"
  {
    assert NatToString(0) == "0";
    assert PadStart("0", 2) == "00";
  }
}
