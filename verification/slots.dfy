/** The half-hour grid of appointment times. The API's slot query
    (src/services/api.ts) and the calendar widget (CalendarView.tsx) build
    it with the same nested loop: hours 9 through 19 inclusive, minutes 0
    and 30, each rendered as a zero-padded "HH:MM" string. That yields 22
    times, the last one 19:30. */
module Slots {
  import opened Strings

  const StartHour: nat := 9
  const EndHour: nat := 19

  /** Two slots per hour from `StartHour` to `EndHour` inclusive. */
  const SlotCount: nat := 2 * (EndHour - StartHour + 1)

  /** A time rendered as the source renders it: both numbers through
      `toString().padStart(2, '0')`, joined by a colon. */
  function Clock(hour: nat, minutes: nat): string {
    PadStart(DecimalString(hour), 2, '0') + ":" + PadStart(DecimalString(minutes), 2, '0')
  }

  /** Closed form of the k-th entry of the grid. */
  function SlotTime(k: nat): string {
    Clock(StartHour + k / 2, 30 * (k % 2))
  }

  /** The "HH:MM" shape: two digits, a colon, two digits. */
  predicate IsClockText(s: string) {
    && |s| == 5
    && IsDigit(s[0]) && IsDigit(s[1]) && s[2] == ':' && IsDigit(s[3]) && IsDigit(s[4])
  }

  /** Reads an "HH:MM" string back as (hours, minutes). */
  function ReadClock(s: string): (int, int)
    requires |s| == 5
  {
    (10 * DigitValue(s[0]) + DigitValue(s[1]), 10 * DigitValue(s[3]) + DigitValue(s[4]))
  }

  /** A rendered time below 100:100, character by character. */
  lemma ClockChars(hour: nat, minutes: nat)
    requires hour < 100 && minutes < 100
    ensures Clock(hour, minutes)
              == [DigitChar(hour / 10), DigitChar(hour % 10), ':', DigitChar(minutes / 10), DigitChar(minutes % 10)]
  {
    TwoDigits(hour);
    TwoDigits(minutes);
  }

  /** Rendering a time below 100:100 gives the "HH:MM" shape, and reading it
      back gives the same numbers. */
  lemma ClockRoundTrip(hour: nat, minutes: nat)
    requires hour < 100 && minutes < 100
    ensures IsClockText(Clock(hour, minutes))
    ensures ReadClock(Clock(hour, minutes)) == (hour, minutes)
  {
    ClockChars(hour, minutes);
    ReadDigits(hour, minutes);
  }

  /** The five characters of a rendered time read back as its numbers. */
  lemma ReadDigits(hour: nat, minutes: nat)
    requires hour < 100 && minutes < 100
    ensures var s := [DigitChar(hour / 10), DigitChar(hour % 10), ':', DigitChar(minutes / 10), DigitChar(minutes % 10)];
            IsClockText(s) && ReadClock(s) == (hour, minutes)
  {
    assert 10 * (hour / 10) + hour % 10 == hour;
    assert 10 * (minutes / 10) + minutes % 10 == minutes;
  }

  /** Two "HH:MM" strings compare as strings the way the times they read
      as compare. */
  lemma ClockTextOrder(a: string, b: string)
    requires IsClockText(a) && IsClockText(b)
    requires ReadClock(a).0 < ReadClock(b).0 || (ReadClock(a).0 == ReadClock(b).0 && ReadClock(a).1 < ReadClock(b).1)
    ensures LexLess(a, b)
  {
    if a[0] != b[0] {
      LexLessAt(a, b, 0);
    } else if a[1] != b[1] {
      assert a[..1] == b[..1];
      LexLessAt(a, b, 1);
    } else if a[3] != b[3] {
      assert a[..3] == b[..3];
      LexLessAt(a, b, 3);
    } else {
      assert a[..4] == b[..4];
      LexLessAt(a, b, 4);
    }
  }

  /** Rendered times compare as strings the way they compare as times. */
  lemma ClockOrder(h1: nat, m1: nat, h2: nat, m2: nat)
    requires h1 < 100 && m1 < 100 && h2 < 100 && m2 < 100
    requires h1 < h2 || (h1 == h2 && m1 < m2)
    ensures LexLess(Clock(h1, m1), Clock(h2, m2))
  {
    ClockRoundTrip(h1, m1);
    ClockRoundTrip(h2, m2);
    ClockTextOrder(Clock(h1, m1), Clock(h2, m2));
  }

  /** Each grid entry is an "HH:MM" string reading back as hour `9 + k / 2`
      and minutes 0 or 30. */
  lemma SlotReadsBack(k: nat)
    requires k < SlotCount
    ensures IsClockText(SlotTime(k))
    ensures ReadClock(SlotTime(k)) == (StartHour + k / 2, 30 * (k % 2))
  {
    ClockRoundTrip(StartHour + k / 2, 30 * (k % 2));
  }

  /** Later grid entries are later strings. */
  lemma SlotOrder(i: nat, j: nat)
    requires i < j < SlotCount
    ensures LexLess(SlotTime(i), SlotTime(j))
  {
    ClockOrder(StartHour + i / 2, 30 * (i % 2), StartHour + j / 2, 30 * (j % 2));
  }

  /** The grid opens at 09:00 and closes at 19:30. */
  lemma GridEnds()
    ensures SlotTime(0) == "09:00"
    ensures SlotTime(SlotCount - 1) == "19:30"
  {
    TwoDigits(9);
    TwoDigits(0);
    TwoDigits(19);
    TwoDigits(30);
    assert SlotCount - 1 == 21 && 21 / 2 == 10 && 21 % 2 == 1;
  }

  /** Halving `2 * a + j` for `j` below 2 gives back `a` and `j`. */
  lemma Halves(a: nat, j: nat)
    requires j < 2
    ensures (2 * a + j) / 2 == a && (2 * a + j) % 2 == j
  {
  }

  /** The entry the loop appends for `hour` and its `j`-th minute value is
      the closed-form entry at that position. */
  lemma SlotStep(hour: nat, j: nat)
    requires StartHour <= hour && j < 2
    ensures SlotTime(2 * (hour - StartHour) + j) == Clock(hour, [0, 30][j])
  {
    var k: nat := 2 * (hour - StartHour) + j;
    Halves(hour - StartHour, j);
    assert k / 2 == hour - StartHour && k % 2 == j;
    var m := 30 * j;
    assert m == [0, 30][j];
    assert StartHour + k / 2 == hour;
    assert SlotTime(k) == Clock(StartHour + k / 2, 30 * (k % 2));
  }

  /** Everything the closed form promises about a full grid. */
  lemma GridFacts(times: seq<string>)
    requires |times| == SlotCount
    requires forall k :: 0 <= k < |times| ==> times[k] == SlotTime(k)
    ensures forall k :: 0 <= k < |times| ==>
              IsClockText(times[k]) && ReadClock(times[k]) == (StartHour + k / 2, 30 * (k % 2))
    ensures forall i, j :: 0 <= i < j < |times| ==> LexLess(times[i], times[j])
    ensures times[0] == "09:00" && times[|times| - 1] == "19:30"
  {
    forall k | 0 <= k < |times|
      ensures IsClockText(times[k]) && ReadClock(times[k]) == (StartHour + k / 2, 30 * (k % 2))
    {
      SlotReadsBack(k);
    }
    forall i, j | 0 <= i < j < |times|
      ensures LexLess(times[i], times[j])
    {
      SlotOrder(i, j);
    }
    GridEnds();
  }

  /** The grid as the source's nested loop builds it. */
  method HalfHourGrid() returns (times: seq<string>)
    ensures |times| == SlotCount == 22
    ensures forall k :: 0 <= k < |times| ==> times[k] == SlotTime(k)
    ensures forall k :: 0 <= k < |times| ==>
              IsClockText(times[k]) && ReadClock(times[k]) == (StartHour + k / 2, 30 * (k % 2))
    ensures forall i, j :: 0 <= i < j < |times| ==> LexLess(times[i], times[j])
    ensures times[0] == "09:00" && times[|times| - 1] == "19:30"
  {
    times := [];
    var hour := StartHour;
    while hour <= EndHour
      invariant StartHour <= hour <= EndHour + 1
      invariant |times| == 2 * (hour - StartHour)
      invariant forall k :: 0 <= k < |times| ==> times[k] == SlotTime(k)
    {
      var minutes := [0, 30];
      var j := 0;
      while j < |minutes|
        invariant 0 <= j <= |minutes|
        invariant |times| == 2 * (hour - StartHour) + j
        invariant forall k :: 0 <= k < |times| ==> times[k] == SlotTime(k)
      {
        SlotStep(hour, j);
        times := times + [Clock(hour, minutes[j])];
        j := j + 1;
      }
      hour := hour + 1;
    }
    GridFacts(times);
  }
}
