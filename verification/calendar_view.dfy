/** The month calendar of src/components/CalendarView.tsx: the grid of day
    cells under a Monday-first week header, the rule for which days can be
    picked, and the selection state that month navigation resets. Today's
    date, the weekday of the first of the month and the month's length are
    arguments; the widget reads them from the browser's clock and `Date`. */
module CalendarView {
  import opened Common
  import Slots
  import Strings

  /** The days of every month the widget offers as bookable. */
  const AvailableDates: seq<nat> := [3, 4, 5, 8, 9, 10, 11, 12, 15, 16, 17, 18, 19, 22, 23, 24, 25, 26]

  /** The widget's state: the month shown (`month` counts from 0, as in
      `Date.getMonth()`), the chosen day, the chosen time and the time slots
      on offer, each a time and whether it can be picked. */
  datatype View = View(year: int, month: int, selectedDate: Option<nat>, selectedTime: Option<string>,
                       timeSlots: seq<(string, bool)>)

  /** The slots `generateTimeSlots` yields for the availability draws
      `draw`: the half-hour grid, the k-th time available when `draw(k)`. */
  function TimeSlots(draw: nat -> bool): (r: seq<(string, bool)>)
    ensures |r| == Slots.SlotCount
    ensures forall k :: 0 <= k < |r| ==> r[k] == (Slots.SlotTime(k), draw(k))
  {
    seq(Slots.SlotCount, k requires 0 <= k => (Slots.SlotTime(k), draw(k)))
  }

  predicate ValidMonth(v: View) {
    0 <= v.month < 12
  }

  /** `getDay() || 7`: the weekday of the 1st counted from Monday = 1 to
      Sunday = 7. One less is the number of blank cells before it in a
      Monday-first row. */
  function FirstDay(weekday: nat): (r: nat)
    requires weekday < 7
    ensures 1 <= r <= 7
    ensures r - 1 == (weekday + 6) % 7
  {
    if weekday == 0 then 7 else weekday
  }

  /** The cells of the month grid, built as the widget's two loops build
      them: `FirstDay - 1` blanks, then the days 1 to `daysInMonth`. */
  method CalendarDays(weekday: nat, daysInMonth: nat) returns (cells: seq<Option<nat>>)
    requires weekday < 7
    ensures |cells| == FirstDay(weekday) - 1 + daysInMonth
    ensures forall i :: 0 <= i < FirstDay(weekday) - 1 ==> cells[i] == None
    ensures forall d :: 1 <= d <= daysInMonth ==> cells[FirstDay(weekday) - 2 + d] == Some(d)
  {
    var firstDay := FirstDay(weekday);
    cells := [];
    var i := 1;
    while i < firstDay
      invariant 1 <= i <= firstDay
      invariant |cells| == i - 1
      invariant forall k :: 0 <= k < |cells| ==> cells[k] == None
    {
      cells := cells + [None];
      i := i + 1;
    }
    var day := 1;
    while day <= daysInMonth
      invariant 1 <= day <= daysInMonth + 1
      invariant |cells| == firstDay - 1 + day - 1
      invariant forall k :: 0 <= k < firstDay - 1 ==> cells[k] == None
      invariant forall d :: 1 <= d < day ==> cells[firstDay - 2 + d] == Some(d)
    {
      cells := cells + [Some(day)];
      day := day + 1;
    }
  }

  /** Every day lands in the column of its weekday: with the 1st on
      `weekday` (0 = Sunday), day `d` sits in column `(weekday + d - 1)`
      counted Monday-first. */
  lemma DayUnderItsWeekday(weekday: nat, d: nat)
    requires weekday < 7 && d >= 1
    ensures (FirstDay(weekday) - 2 + d) % 7 == ((weekday + d - 1) + 6) % 7
  {
    var f := FirstDay(weekday);
    assert f - 1 == (weekday + 6) % 7;
    var q := (weekday + 6) / 7;
    assert weekday + 6 == 7 * q + (f - 1);
    assert (weekday + d - 1) + 6 == (f - 2 + d) + 7 * q;
  }

  /** `(year, month)` with a month index outside 0..11 folded into the
      neighbouring year, as `new Date(year, month, 1)` does. */
  function NormalizeMonth(year: int, month: int): (r: (int, int))
    ensures 0 <= r.1 < 12
    ensures 12 * r.0 + r.1 == 12 * year + month
  {
    (year + month / 12, month % 12)
  }

  /** `handlePreviousMonth`: one month back, nothing selected. */
  function PreviousMonth(v: View): (r: View)
    ensures ValidMonth(r)
    ensures 12 * r.year + r.month == 12 * v.year + v.month - 1
    ensures r.selectedDate.None? && r.selectedTime.None?
    ensures r.timeSlots == v.timeSlots
  {
    var ym := NormalizeMonth(v.year, v.month - 1);
    View(ym.0, ym.1, None, None, v.timeSlots)
  }

  /** `handleNextMonth`: one month forward, nothing selected. */
  function NextMonth(v: View): (r: View)
    ensures ValidMonth(r)
    ensures 12 * r.year + r.month == 12 * v.year + v.month + 1
    ensures r.selectedDate.None? && r.selectedTime.None?
    ensures r.timeSlots == v.timeSlots
  {
    var ym := NormalizeMonth(v.year, v.month + 1);
    View(ym.0, ym.1, None, None, v.timeSlots)
  }

  /** Going forward then back returns to the month shown, with the
      selection cleared. */
  lemma NextThenPrevious(v: View)
    requires ValidMonth(v)
    ensures PreviousMonth(NextMonth(v)) == v.(selectedDate := None, selectedTime := None)
    ensures NextMonth(PreviousMonth(v)) == v.(selectedDate := None, selectedTime := None)
  {
    var r := PreviousMonth(NextMonth(v));
    assert 12 * (r.year - v.year) == v.month - r.month;
    assert -12 < v.month - r.month < 12;
    var r' := NextMonth(PreviousMonth(v));
    assert 12 * (r'.year - v.year) == v.month - r'.month;
    assert -12 < v.month - r'.month < 12;
  }

  /** `handleDateSelection`: a listed day becomes the selected date, the
      chosen time is cleared and fresh slots are drawn; any other day changes
      nothing. */
  function SelectDate(v: View, day: nat, draw: nat -> bool): (r: View)
    ensures day !in AvailableDates ==> r == v
    ensures day in AvailableDates ==>
              r == v.(selectedDate := Some(day), selectedTime := None, timeSlots := TimeSlots(draw))
  {
    if day in AvailableDates then v.(selectedDate := Some(day), selectedTime := None, timeSlots := TimeSlots(draw))
    else v
  }

  /** `handleTimeSelection`: the time becomes the chosen one, nothing else
      changes. */
  function SelectTime(v: View, time: string): (r: View)
    ensures r.selectedTime == Some(time)
    ensures r.(selectedTime := v.selectedTime) == v
  {
    v.(selectedTime := Some(time))
  }

  /** `selectedDate && …`: the slot buttons are on screen only while a day
      is chosen (a day 0 would be falsy and hide them). */
  predicate SlotsShown(v: View) {
    v.selectedDate.Some? && v.selectedDate.value != 0
  }

  /** A click on the k-th slot button: the buttons are on screen only with a
      day chosen, and only an available slot reaches `handleTimeSelection`. */
  function ClickSlot(v: View, k: nat): (r: View)
    ensures r.selectedTime != v.selectedTime ==>
              && SlotsShown(v) && k < |v.timeSlots| && v.timeSlots[k].1
              && r.selectedTime == Some(v.timeSlots[k].0)
    ensures SlotsShown(v) && k < |v.timeSlots| && v.timeSlots[k].1 ==>
              r.selectedTime == Some(v.timeSlots[k].0)
    ensures !SlotsShown(v) ==> r == v
    ensures r.(selectedTime := v.selectedTime) == v
  {
    if SlotsShown(v) && k < |v.timeSlots| && v.timeSlots[k].1 then SelectTime(v, v.timeSlots[k].0) else v
  }

  /** Once a date is picked from the widget's own grid, any time then chosen
      is a grid time: "HH:MM" with HH from 09 to 19 and MM 00 or 30. */
  lemma ChosenTimeIsOnGrid(v: View, day: nat, draw: nat -> bool, k: nat)
    requires day in AvailableDates
    requires ClickSlot(SelectDate(v, day, draw), k).selectedTime.Some?
    ensures var t := ClickSlot(SelectDate(v, day, draw), k).selectedTime.value;
            && Slots.IsClockText(t)
            && 9 <= Slots.ReadClock(t).0 <= 19
            && Slots.ReadClock(t).1 in {0, 30}
  {
    var w := SelectDate(v, day, draw);
    assert w.selectedTime.None? && w.timeSlots == TimeSlots(draw);
    var r := ClickSlot(w, k);
    assert r.selectedTime != w.selectedTime;
    assert k < |w.timeSlots| && r.selectedTime == Some(w.timeSlots[k].0);
    SlotTimeOnGrid(k);
  }

  /** The k-th grid time reads as an hour from 9 to 19 and a minute of 0 or
      30. */
  lemma SlotTimeOnGrid(k: nat)
    requires k < Slots.SlotCount
    ensures Slots.IsClockText(Slots.SlotTime(k))
    ensures 9 <= Slots.ReadClock(Slots.SlotTime(k)).0 <= 19
    ensures Slots.ReadClock(Slots.SlotTime(k)).1 in {0, 30}
  {
    Slots.SlotReadsBack(k);
    assert k / 2 <= 10 && (k % 2 == 0 || k % 2 == 1);
  }

  /** `isDateInPast`: the day of the shown month is before today, comparing
      year, then month, then day. */
  predicate IsDateInPast(v: View, todayYear: int, todayMonth: int, todayDay: int, day: int) {
    if v.year < todayYear then true
    else if v.year == todayYear && v.month < todayMonth then true
    else if v.year == todayYear && v.month == todayMonth && day < todayDay then true
    else false
  }

  /** A day as one number, year, month and day in decimal places. */
  function DayKey(year: int, month: int, day: int): int {
    10000 * year + 100 * month + day
  }

  /** For real calendar dates the three-way test is the plain "earlier
      than" on dates. */
  lemma PastIsEarlier(v: View, todayYear: int, todayMonth: int, todayDay: int, day: int)
    requires ValidMonth(v) && 0 <= todayMonth < 12
    requires 1 <= day <= 31 && 1 <= todayDay <= 31
    ensures IsDateInPast(v, todayYear, todayMonth, todayDay, day)
            <==> DayKey(v.year, v.month, day) < DayKey(todayYear, todayMonth, todayDay)
  {
  }

  /** Today is not in the past, and an earlier day of a past day's month is
      past as well. */
  lemma PastIsDownwardClosed(v: View, todayYear: int, todayMonth: int, todayDay: int, day: int, earlier: int)
    requires earlier <= day
    ensures !IsDateInPast(v.(year := todayYear, month := todayMonth), todayYear, todayMonth, todayDay, todayDay)
    ensures IsDateInPast(v, todayYear, todayMonth, todayDay, day) ==>
              IsDateInPast(v, todayYear, todayMonth, todayDay, earlier)
  {
  }

  /** A click on a day cell: only an available day that is not in the past
      reaches `handleDateSelection`. */
  function ClickDay(v: View, todayYear: int, todayMonth: int, todayDay: int, day: nat, draw: nat -> bool): (r: View)
    ensures r != v ==> day in AvailableDates && !IsDateInPast(v, todayYear, todayMonth, todayDay, day)
    ensures r != v ==> r.selectedDate == Some(day) && r.selectedTime.None? && r.timeSlots == TimeSlots(draw)
    ensures day in AvailableDates && !IsDateInPast(v, todayYear, todayMonth, todayDay, day) ==>
              r.selectedDate == Some(day) && r.selectedTime.None? && r.timeSlots == TimeSlots(draw)
    ensures r.(selectedDate := v.selectedDate, selectedTime := v.selectedTime, timeSlots := v.timeSlots) == v
  {
    if day in AvailableDates && !IsDateInPast(v, todayYear, todayMonth, todayDay, day) then SelectDate(v, day, draw)
    else v
  }

  // ------------------------------------------------- The widget over time

  /** The widget as it first appears: the current month, nothing chosen, and
      slots already drawn. */
  function Mounted(year: int, month: int, draw: nat -> bool): View {
    View(year, month, None, None, TimeSlots(draw))
  }

  /** What the user can do with the widget. */
  datatype Action =
    | Previous
    | Next
    | PickDay(todayYear: int, todayMonth: int, todayDay: int, day: nat, draw: nat -> bool)
    | PickSlot(k: nat)

  function Act(v: View, a: Action): View {
    match a
    case Previous => PreviousMonth(v)
    case Next => NextMonth(v)
    case PickDay(ty, tm, td, day, draw) => ClickDay(v, ty, tm, td, day, draw)
    case PickSlot(k) => ClickSlot(v, k)
  }

  /** The widget after a sequence of actions, oldest first. */
  function Replay(v: View, acts: seq<Action>): View
    decreases |acts|
  {
    if |acts| == 0 then v else Replay(Act(v, acts[0]), acts[1..])
  }

  /** A time is chosen only together with a day. */
  predicate TimeNeedsDay(v: View) {
    v.selectedTime.Some? ==> SlotsShown(v)
  }

  /** Every action keeps a chosen time tied to a chosen day: month moves
      clear both, a day click sets a listed day and clears the time, and a
      slot click needs the slot buttons on screen. */
  lemma ActKeepsTimeWithDay(v: View, a: Action)
    requires TimeNeedsDay(v)
    ensures TimeNeedsDay(Act(v, a))
  {
    match a
    case PickDay(ty, tm, td, day, draw) =>
      var r := ClickDay(v, ty, tm, td, day, draw);
      if r != v {
        assert day in AvailableDates;
        assert day != 0;
      }
    case _ =>
  }

  /** From the widget as it appears, no sequence of actions chooses a time
      without a day. */
  lemma {:induction false} TimeOnlyWithDay(v: View, acts: seq<Action>)
    requires TimeNeedsDay(v)
    ensures TimeNeedsDay(Replay(v, acts))
    decreases |acts|
  {
    if |acts| > 0 {
      ActKeepsTimeWithDay(v, acts[0]);
      TimeOnlyWithDay(Act(v, acts[0]), acts[1..]);
    }
  }

  lemma MountedTimeOnlyWithDay(year: int, month: int, draw: nat -> bool, acts: seq<Action>)
    ensures TimeNeedsDay(Replay(Mounted(year, month, draw), acts))
  {
    TimeOnlyWithDay(Mounted(year, month, draw), acts);
  }

  /** `generateTimeSlots`: the shared half-hour grid, paired with the
      random availability draws. */
  method GenerateTimeSlots(draw: nat -> bool) returns (slots: seq<(string, bool)>)
    ensures slots == TimeSlots(draw)
    ensures forall i, j :: 0 <= i < j < |slots| ==> Strings.LexLess(slots[i].0, slots[j].0)
  {
    var times := Slots.HalfHourGrid();
    slots := seq(|times|, k requires 0 <= k < |times| => (times[k], draw(k)));
  }
}
