/**
 Slot generation and the availability summary of services/interviews.py.

 Zones are fixed offsets: local time is the instant plus the offset.
 */
module Slots {
  import opened Basics

  const SLOT_GRID := 30 * MINUTE
  const HORIZON_DAYS := 14
  const LEAD := HOUR

  // Monday is 0, as in Python's date.weekday().
  type Weekday = d: nat | d < 7

  // What effective_availability lets through: two times of day, start before end.
  datatype HoursRaw = Hours(open: nat, close: nat)
  type Hours = h: HoursRaw | h.open < h.close < DAY witness Hours(0, 1)

  type Availability = map<Weekday, Hours>

  // A booked window, from its start up to but not including its end.
  datatype Window = Window(start: Instant, end: Instant)

  predicate Overlaps(start: Instant, end: Instant, w: Window) {
    start < w.end && end > w.start
  }

  // 1970-01-01 was a Thursday.
  function DayOfWeek(day: int): Weekday { (day + 3) % 7 }

  function LocalDay(t: Instant, offset: int): int { (t + offset) / DAY }

  function TimeOfDay(t: Instant, offset: int): nat { (t + offset) % DAY }

  function Midnight(day: int, offset: int): Instant { day * DAY - offset }

  /** What a slot is, with no reference to any loop. */
  predicate IsSlot(t: Instant, now: Instant, offset: int, hours: Availability, duration: nat, busy: set<Window>) {
    var today := LocalDay(now, offset);
    var day := LocalDay(t, offset);
    && today < day <= today + HORIZON_DAYS
    && DayOfWeek(day) in hours
    && InHours(TimeOfDay(t, offset), hours[DayOfWeek(day)], duration)
    && now + LEAD <= t
    && forall w | w in busy :: !Overlaps(t, t + duration, w)
  }

  /** The same in figures: one to fourteen local days ahead and at least an hour, on the half-hour grid from opening
      time, over by closing time, and clear of every booking. */
  lemma SlotMeans(t: Instant, now: Instant, offset: int, hours: Availability, duration: nat, busy: set<Window>)
    ensures IsSlot(t, now, offset, hours, duration, busy) <==>
              var day := (t + offset) / 86_400_000_000;
              var time := (t + offset) % 86_400_000_000;
              var weekday := (day + 3) % 7;
              && 1 <= day - (now + offset) / 86_400_000_000 <= 14
              && weekday in hours
              && hours[weekday].open <= time && time + duration <= hours[weekday].close
              && (time - hours[weekday].open) % 1_800_000_000 == 0
              && 3_600_000_000 <= t - now
              && forall w | w in busy :: w.end <= t || t + duration <= w.start
  {
  }

  // On the half-hour grid that starts at opening time, and over by closing time.
  predicate InHours(time: nat, h: Hours, duration: nat) {
    h.open <= time && time + duration <= h.close && (time - h.open) % SLOT_GRID == 0
  }

  predicate Increasing(s: seq<Instant>) {
    forall i, j | 0 <= i < j < |s| :: s[i] < s[j]
  }

  // The slots found so far are exactly the slots before a bound.
  ghost predicate FoundBefore(slots: seq<Instant>, bound: Instant,
                        now: Instant, offset: int, hours: Availability, duration: nat, busy: set<Window>) {
    && Increasing(slots)
    && forall t :: t in slots <==> t < bound && IsSlot(t, now, offset, hours, duration, busy)
  }

  lemma AppendKeepsIncreasing(s: seq<Instant>, t: Instant)
    requires Increasing(s) && forall x :: x in s ==> x < t
    ensures Increasing(s + [t])
  {
    forall i | 0 <= i < |s| ensures s[i] < t { assert s[i] in s; }
  }

  lemma FoundOneMore(slots: seq<Instant>, t: Instant, bound: Instant,
                     now: Instant, offset: int, hours: Availability, duration: nat, busy: set<Window>)
    requires FoundBefore(slots, t, now, offset, hours, duration, busy) && t < bound
    requires IsSlot(t, now, offset, hours, duration, busy)
    requires forall u | t < u < bound :: !IsSlot(u, now, offset, hours, duration, busy)
    ensures FoundBefore(slots + [t], bound, now, offset, hours, duration, busy)
  {
    hide IsSlot, Increasing;
    AppendKeepsIncreasing(slots, t);
  }

  // The two coordinates of an instant within one local day.
  lemma DayCoordinates(day: int, offset: int, time: int)
    requires 0 <= time < DAY
    ensures LocalDay(Midnight(day, offset) + time, offset) == day
    ensures TimeOfDay(Midnight(day, offset) + time, offset) == time
  {
    assert Midnight(day, offset) + time + offset == day * DAY + time;
  }

  // Every instant is its local day's midnight plus its time of day.
  lemma FromCoordinates(t: Instant, offset: int)
    ensures t == Midnight(LocalDay(t, offset), offset) + TimeOfDay(t, offset)
  {
  }

  lemma NoGridPointBetween(a: nat, k: nat)
    requires k * SLOT_GRID < a < (k + 1) * SLOT_GRID
    ensures a % SLOT_GRID != 0
  {
    assert a == k * SLOT_GRID + (a - k * SLOT_GRID);
  }

  function Min(a: int, b: int): int { if a < b then a else b }

  // Past the k-th grid point of a day, the next slot of that day is at the next grid point or later.
  lemma SlotsSkipToNextGridPoint(t: Instant, day: int, open: nat, k: nat,
                                 now: Instant, offset: int, hours: Availability, duration: nat, busy: set<Window>)
    requires DayOfWeek(day) in hours && hours[DayOfWeek(day)].open == open
    requires Midnight(day, offset) + open + k * SLOT_GRID < t < Midnight(day + 1, offset)
    requires IsSlot(t, now, offset, hours, duration, busy)
    ensures Midnight(day, offset) + open + (k + 1) * SLOT_GRID <= t
  {
    var time := t - Midnight(day, offset);
    DayCoordinates(day, offset, time);
    if time - open < (k + 1) * SLOT_GRID {
      NoGridPointBetween(time - open, k);
      assert false;
    }
  }

  // One cursor position: an instant of a day's grid is a slot exactly when the loop keeps it.
  lemma CursorIsSlot(day: int, open: nat, k: nat,
                     now: Instant, offset: int, hours: Availability, duration: nat, busy: set<Window>)
    requires DayOfWeek(day) in hours && hours[DayOfWeek(day)].open == open
    requires open + k * SLOT_GRID + duration <= hours[DayOfWeek(day)].close
    requires LocalDay(now, offset) < day <= LocalDay(now, offset) + HORIZON_DAYS
    ensures var t := Midnight(day, offset) + open + k * SLOT_GRID;
            IsSlot(t, now, offset, hours, duration, busy)
            <==> now + LEAD <= t && forall w | w in busy :: !Overlaps(t, t + duration, w)
  {
    DayCoordinates(day, offset, open + k * SLOT_GRID);
    assert (k * SLOT_GRID) % SLOT_GRID == 0;
  }

  // A day with no grid point left that fits has no slot left.
  lemma NothingAfterClosing(t: Instant, day: int, open: nat, k: nat,
                            now: Instant, offset: int, hours: Availability, duration: nat, busy: set<Window>)
    requires DayOfWeek(day) in hours && hours[DayOfWeek(day)].open == open
    requires open + k * SLOT_GRID + duration > hours[DayOfWeek(day)].close
    requires Midnight(day, offset) + open + k * SLOT_GRID <= t < Midnight(day + 1, offset)
    ensures !IsSlot(t, now, offset, hours, duration, busy)
  {
    DayCoordinates(day, offset, t - Midnight(day, offset));
  }

  // Before opening, or on a day with no hours, there is no slot.
  lemma NothingBeforeOpening(t: Instant, day: int,
                             now: Instant, offset: int, hours: Availability, duration: nat, busy: set<Window>)
    requires Midnight(day, offset) <= t < Midnight(day + 1, offset)
    requires DayOfWeek(day) in hours ==> t < Midnight(day, offset) + hours[DayOfWeek(day)].open
    ensures !IsSlot(t, now, offset, hours, duration, busy)
  {
    DayCoordinates(day, offset, t - Midnight(day, offset));
  }

  // Nothing up to and including today, nothing beyond the horizon.
  lemma NothingOutsideHorizon(t: Instant, now: Instant, offset: int, hours: Availability, duration: nat, busy: set<Window>)
    requires IsSlot(t, now, offset, hours, duration, busy)
    ensures Midnight(LocalDay(now, offset) + 1, offset) <= t
    ensures t < Midnight(LocalDay(now, offset) + HORIZON_DAYS + 1, offset)
  {
    FromCoordinates(t, offset);
  }

  method GenerateSlots(now: Instant, offset: int, hours: Availability, duration: nat, busy: set<Window>)
    returns (slots: seq<Instant>)
    ensures Increasing(slots)
    ensures forall t :: t in slots <==> IsSlot(t, now, offset, hours, duration, busy)
  {
    var firstDay := LocalDay(now, offset) + 1;
    slots := [];
    forall t ensures !(t < Midnight(firstDay, offset) && IsSlot(t, now, offset, hours, duration, busy)) {
      if IsSlot(t, now, offset, hours, duration, busy) {
        NothingOutsideHorizon(t, now, offset, hours, duration, busy);
      }
    }
    for i := 0 to HORIZON_DAYS
      invariant FoundBefore(slots, Midnight(firstDay + i, offset), now, offset, hours, duration, busy)
    {
      slots := SlotsOfDay(slots, firstDay + i, now, offset, hours, duration, busy);
    }
    forall t | IsSlot(t, now, offset, hours, duration, busy) ensures t < Midnight(firstDay + HORIZON_DAYS, offset) {
      NothingOutsideHorizon(t, now, offset, hours, duration, busy);
    }
  }

  /** The body of the outer loop: one day's cursor walk. */
  method SlotsOfDay(before: seq<Instant>, day: int,
                    now: Instant, offset: int, hours: Availability, duration: nat, busy: set<Window>)
    returns (slots: seq<Instant>)
    requires LocalDay(now, offset) < day <= LocalDay(now, offset) + HORIZON_DAYS
    requires FoundBefore(before, Midnight(day, offset), now, offset, hours, duration, busy)
    ensures FoundBefore(slots, Midnight(day + 1, offset), now, offset, hours, duration, busy)
  {
    hide IsSlot, DayOfWeek, LocalDay, Increasing;
    slots := before;
    var midnight, next := Midnight(day, offset), Midnight(day + 1, offset);
    if DayOfWeek(day) !in hours {
      forall t | midnight <= t < next ensures !IsSlot(t, now, offset, hours, duration, busy) {
        NothingBeforeOpening(t, day, now, offset, hours, duration, busy);
      }
      return;
    }
    var open, dayEnd := hours[DayOfWeek(day)].open, midnight + hours[DayOfWeek(day)].close;
    var cursor := midnight + open;
    ghost var k := 0;
    forall t | midnight <= t < cursor ensures !IsSlot(t, now, offset, hours, duration, busy) {
      NothingBeforeOpening(t, day, now, offset, hours, duration, busy);
    }
    while cursor + duration <= dayEnd
      invariant cursor == midnight + open + k * SLOT_GRID
      invariant FoundBefore(slots, Min(cursor, next), now, offset, hours, duration, busy)
      decreases dayEnd - cursor
    {
      CursorIsSlot(day, open, k, now, offset, hours, duration, busy);
      forall t | cursor < t < Min(cursor + SLOT_GRID, next) ensures !IsSlot(t, now, offset, hours, duration, busy) {
        if IsSlot(t, now, offset, hours, duration, busy) {
          SlotsSkipToNextGridPoint(t, day, open, k, now, offset, hours, duration, busy);
        }
      }
      if cursor < now + LEAD {
        cursor, k := cursor + SLOT_GRID, k + 1;
        continue;
      }
      var conflict := exists w | w in busy :: cursor < w.end && cursor + duration > w.start;
      if !conflict {
        FoundOneMore(slots, cursor, Min(cursor + SLOT_GRID, next), now, offset, hours, duration, busy);
        slots := slots + [cursor];
      }
      cursor, k := cursor + SLOT_GRID, k + 1;
    }
    forall t | cursor <= t < next ensures !IsSlot(t, now, offset, hours, duration, busy) {
      NothingAfterClosing(t, day, open, k, now, offset, hours, duration, busy);
    }
  }

  // ---------------------------------------------------------------- availability summary

  // A run of weekdays, first to last, that share one window.
  datatype Run = Run(first: int, last: int, window: Hours)

  predicate Covers(r: Run, day: int) { r.first <= day <= r.last }

  // The window the runs give a day, if any: how the summary is read back.
  function Lookup(runs: seq<Run>, day: int): Option<Hours> {
    if runs == [] then None
    else if Covers(runs[|runs| - 1], day) then Some(runs[|runs| - 1].window)
    else Lookup(runs[..|runs| - 1], day)
  }

  function HoursOf(hours: Availability, day: int): Option<Hours> {
    if 0 <= day < 7 && day in hours then Some(hours[day]) else None
  }

  // Non-empty runs in weekday order, and no two neighbours that could be one run.
  predicate Compressed(runs: seq<Run>) {
    && (forall i | 0 <= i < |runs| :: 0 <= runs[i].first <= runs[i].last < 7)
    && (forall i | 0 < i < |runs| :: runs[i - 1].last < runs[i].first)
    && (forall i | 0 < i < |runs| ::
          runs[i].first == runs[i - 1].last + 1 ==> runs[i].window != runs[i - 1].window)
  }

  // One weekday of the summary loop.
  function AddDay(runs: seq<Run>, index: int, hours: Availability): seq<Run> {
    match HoursOf(hours, index)
    case None => runs
    case Some(window) =>
      var n := |runs| - 1;
      if n >= 0 && runs[n].last == index - 1 && runs[n].window == window
      then runs[n := Run(runs[n].first, index, window)]
      else runs + [Run(index, index, window)]
  }

  // The runs read back as the hours of the first n days.
  ghost predicate Summarizes(runs: seq<Run>, hours: Availability, n: int) {
    && Compressed(runs)
    && (|runs| > 0 ==> runs[|runs| - 1].last < n)
    && forall day :: Lookup(runs, day) == if day < n then HoursOf(hours, day) else None
  }

  lemma AddDayKeeps(runs: seq<Run>, index: int, hours: Availability)
    requires 0 <= index < 7 && Summarizes(runs, hours, index)
    ensures Summarizes(AddDay(runs, index, hours), hours, index + 1)
  {
    AddDayCompresses(runs, index, hours);
    forall day ensures Lookup(AddDay(runs, index, hours), day) == if day < index + 1 then HoursOf(hours, day) else None {
      AddDayReadsBack(runs, index, hours, day);
    }
  }

  lemma AddDayCompresses(runs: seq<Run>, index: int, hours: Availability)
    requires 0 <= index < 7 && Compressed(runs) && (|runs| > 0 ==> runs[|runs| - 1].last < index)
    ensures var r := AddDay(runs, index, hours); Compressed(r) && (|r| > 0 ==> r[|r| - 1].last < index + 1)
  {
    hide HoursOf;
  }

  lemma AddDayReadsBack(runs: seq<Run>, index: int, hours: Availability, day: int)
    requires 0 <= index < 7 && (runs != [] ==> runs[|runs| - 1].first <= runs[|runs| - 1].last < index)
    requires Lookup(runs, day) == if day < index then HoursOf(hours, day) else None
    ensures Lookup(AddDay(runs, index, hours), day) == if day < index + 1 then HoursOf(hours, day) else None
  {
    hide HoursOf, Lookup;
    if HoursOf(hours, index).Some? {
      LookupAdded(runs, Run(index, index, HoursOf(hours, index).value), day);
      if runs != [] {
        LookupChanged(runs, Run(runs[|runs| - 1].first, index, HoursOf(hours, index).value), day);
      }
    }
  }

  lemma LookupAdded(runs: seq<Run>, last: Run, day: int)
    ensures Lookup(runs + [last], day) == if Covers(last, day) then Some(last.window) else Lookup(runs, day)
  {
    assert (runs + [last])[..|runs|] == runs;
  }

  lemma LookupChanged(runs: seq<Run>, last: Run, day: int)
    requires runs != []
    ensures var n := |runs| - 1;
            && Lookup(runs, day) == (if Covers(runs[n], day) then Some(runs[n].window) else Lookup(runs[..n], day))
            && Lookup(runs[n := last], day) == if Covers(last, day) then Some(last.window) else Lookup(runs[..n], day)
  {
    var n := |runs| - 1;
    assert runs[n := last][..n] == runs[..n];
  }

  /** Reading the runs back gives every day its own window again, and the runs are as few as can be. */
  method SummarizeAvailability(hours: Availability) returns (runs: seq<Run>)
    ensures forall day :: Lookup(runs, day) == HoursOf(hours, day)
    ensures Compressed(runs)
  {
    runs := [];
    for index := 0 to 7
      invariant Summarizes(runs, hours, index)
    {
      hide HoursOf, Lookup, Compressed;
      AddDayKeeps(runs, index, hours);
      var opening := HoursOf(hours, index);
      if opening.Some? {
        var n := |runs| - 1;
        if n >= 0 && runs[n].last == index - 1 && runs[n].window == opening.value {
          runs := runs[n := Run(runs[n].first, index, opening.value)];
        } else {
          runs := runs + [Run(index, index, opening.value)];
        }
      }
    }
  }
}
