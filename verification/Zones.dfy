/**
 Bookings and the interviewer's zone. The slot list reads the bookings of its own days, from local midnight on:
 nothing is missing as long as all bookings were made in one zone, because no slot runs past its midnight.
 */
module Zones {
  import opened Basics
  import opened Slots
  import opened Booking
  import opened SampleRuns

  // The window ends before the next local midnight.
  predicate WithinDay(start: Instant, minutes: nat, offset: int) {
    End(start, minutes) < Midnight(LocalDay(start, offset) + 1, offset)
  }

  lemma SlotEndsBeforeMidnight(t: Instant, now: Instant, offset: int, hours: Availability, duration: nat, busy: set<Window>)
    requires IsSlot(t, now, offset, hours, duration, busy)
    ensures t + duration < Midnight(LocalDay(t, offset) + 1, offset)
  {
    FromCoordinates(t, offset);
  }

  // Every offer to this interviewer's candidates was computed in this zone.
  ghost predicate InOneZone(s: State, events: seq<Event>, user: UserId, offset: int)
    requires IsRun(s, events)
    decreases |events|
  {
    events != [] ==>
      && (events[0].CheckOffered? && s.requests[events[0].r].copy.interviewer == user ==> events[0].offset == offset)
      && InOneZone(Next(s, events[0]), events[1..], user, offset)
  }

  // The interviewer's times, on rows and in requests that passed the offer, end on their local day.
  ghost predicate DaysKept(s: State, user: UserId, offset: int) {
    && (forall id | id in s.table && s.table[id].interviewer == user && s.table[id].start.Some? ::
          WithinDay(s.table[id].start.value, s.table[id].minutes, offset))
    && (forall r | r in s.requests && s.requests[r].copy.interviewer == user && !s.requests[r].phase.Loaded? ::
          WithinDay(s.requests[r].start, s.requests[r].copy.minutes, offset))
  }

  lemma StepKeepsDays(s: State, e: Event, user: UserId, offset: int)
    requires Inv(s) && Enabled(s, e) && DaysKept(s, user, offset)
    requires e.CheckOffered? && s.requests[e.r].copy.interviewer == user ==> e.offset == offset
    ensures DaysKept(Next(s, e), user, offset)
  {
    hide WithinDay, NoDoubleBooking, LockOk, IsUnbooked, IndexAllows;
    if e.CheckOffered? && IsOffered(s.table, Memory(s.requests[e.r], e.fromCopy), s.requests[e.r], e.now, e.offset, e.hours) {
      OfferIsWithinDay(s.table, Memory(s.requests[e.r], e.fromCopy), s.requests[e.r], e.now, e.offset, e.hours);
    } else if e.Write? {
      assert RequestOk(s, e.r, s.requests[e.r]);
    }
    hide IsOffered;
  }

  lemma OfferIsWithinDay(table: Table, memory: Table, q: Request, now: Instant, offset: int, hours: Availability)
    requires IsOffered(table, memory, q, now, offset, hours)
    ensures WithinDay(q.start, q.copy.minutes, offset)
  {
    var first := LocalDay(now, offset) + 1;
    SlotEndsBeforeMidnight(q.start, now, offset, hours, q.copy.minutes * MINUTE,
                           BookedWindows(table, memory, q.copy.interviewer,
                                         Midnight(first, offset), Midnight(first + HORIZON_DAYS, offset)));
  }

  lemma {:induction false} RunKeepsDays(s: State, events: seq<Event>, user: UserId, offset: int)
    requires Inv(s) && IsRun(s, events) && DaysKept(s, user, offset) && InOneZone(s, events, user, offset)
    ensures DaysKept(After(s, events), user, offset)
    decreases |events|
  {
    if events != [] {
      StepKeepsDays(s, events[0], user, offset);
      StepKeepsInv(s, events[0]);
      RunKeepsDays(Next(s, events[0]), events[1..], user, offset);
    }
  }

  /** As long as an interviewer's slots are all computed in one zone, a slot on offer overlaps no booking at all, and
      the re-check under the lock refuses it only for a booking made since. */
  lemma OneZoneOffersAreFree(events: seq<Event>, q: Request, now: Instant, offset: int, hours: Availability)
    requires IsRun(EMPTY, events) && InOneZone(EMPTY, events, q.copy.interviewer, offset)
    requires IsOffered(After(EMPTY, events).table, map[], q, now, offset, hours)
    ensures IsUnbooked(After(EMPTY, events).table, map[], q)
  {
    RunKeepsInv(EMPTY, events);
    RunKeepsDays(EMPTY, events, q.copy.interviewer, offset);
    var table := After(EMPTY, events).table;
    var lo := Midnight(LocalDay(now, offset) + 1, offset);
    RecheckRefusesExactly(table, q, now, offset, hours);
    forall id | id in table && Occupies(table[id], q.copy.interviewer) && table[id].start.value < lo
      ensures !Overlaps(q.start, End(q.start, q.copy.minutes), WindowOf(table[id]))
    {
      EarlierDayIsOver(table[id].start.value, table[id].minutes, q.start, now, offset);
    }
  }

  lemma EarlierDayIsOver(start: Instant, minutes: nat, t: Instant, now: Instant, offset: int)
    requires WithinDay(start, minutes, offset) && start < Midnight(LocalDay(now, offset) + 1, offset)
    requires LocalDay(now, offset) < LocalDay(t, offset)
    ensures End(start, minutes) <= t
  {
    FromCoordinates(t, offset);
    FromCoordinates(start, offset);
    FromCoordinates(now, offset);
    assert LocalDay(start, offset) <= LocalDay(now, offset);
  }

  // ---------------------------------------------------------------- a change of zone

  // The other candidate's request, for the full hour, and the table it meets.
  const NEXT := Request(Book, 1, DAY + HOUR, Loaded, ROW.(application := 4), 1)
  const TAKEN: Table := map[0 := BOOKED]

  lemma ListMissesIt()
    ensures IsOffered(TAKEN, map[], NEXT, HOUR, -HOUR, OPEN_FRIDAY)
  {
    assert LocalDay(HOUR, -HOUR) == 0 && LocalDay(NEXT.start, -HOUR) == 1 && TimeOfDay(NEXT.start, -HOUR) == 0;
    assert DayOfWeek(1) == 4 && Midnight(1, -HOUR) == DAY + HOUR;
    assert BookedWindows(TAKEN, map[], 7, Midnight(1, -HOUR), Midnight(1 + HORIZON_DAYS, -HOUR)) == {};
  }

  lemma RecheckFindsIt()
    ensures !IsUnbooked(TAKEN, map[], NEXT)
  {
    assert Occupies(TAKEN[0], 7);
    LookbackFindsOverlap(TAKEN, map[], 7, NEXT.start, End(NEXT.start, 60), 0);
    assert Overlaps(NEXT.start, End(NEXT.start, 60), WindowOf(TAKEN[0]));
  }

  /** When the interviewer moves one hour west, from London to the Azores, the booking of half past midnight runs past
      the new midnight: the list then offers a start in the middle of it, and only the re-check refuses. */
  lemma ZoneChangeOffersTaken()
    ensures IsRun(EMPTY, FirstBooking())
    ensures var table := After(EMPTY, FirstBooking()).table;
            && IsOffered(table, map[], NEXT, HOUR, -HOUR, OPEN_FRIDAY)
            && !IsUnbooked(table, map[], NEXT)
  {
    hide IsOffered, IsUnbooked;
    FirstIsBooked();
    ListMissesIt();
    RecheckFindsIt();
  }
}
