/** One booking made step by step: where the runs that break a promise of the booking protocol start from. */
module SampleRuns {
  import opened Basics
  import opened Slots
  import opened Booking

  // Fridays from midnight to two, in the zone of offset 0; 1970-01-02 was a Friday.
  const OPEN_FRIDAY: Availability := map[4 := Hours(0, 2 * HOUR)]
  const HALF_PAST := DAY + 30 * MINUTE

  const ROW := Interview(3, 7, 60, Pending, None, 0)
  const BOOKED := ROW.(status := Booked, start := Some(HALF_PAST))
  const ASKING := Request(Book, 0, HALF_PAST, Loaded, ROW, 0)

  // An hour booked for Friday, half past midnight.
  function FirstBooking(): seq<Event> {
    [Create(0, 3, 7, 60)] + [Load(1, Book, 0, HALF_PAST)] + [CheckOffered(1, 0, 0, OPEN_FRIDAY, false)]
    + [Lock(1)] + [Refresh(1)] + [CheckUnbooked(1, false)] + [Write(1, false)]
  }

  lemma FirstIsBooked()
    ensures IsRun(EMPTY, FirstBooking())
    ensures After(EMPTY, FirstBooking()) == State(map[0 := BOOKED], map[], map[], [Commit(0, Book, 0)])
  {
    var e1 := Create(0, 3, 7, 60);
    var s1 := State(map[0 := ROW], map[], map[], []);
    OneStep(EMPTY, e1);
    OneMore(EMPTY, [e1], Load(1, Book, 0, HALF_PAST));
    var s2 := s1.(requests := map[1 := ASKING]);
    var e2 := [e1] + [Load(1, Book, 0, HALF_PAST)];
    assert After(EMPTY, e2) == s2;
    FirstIsOffered(s2);
    OneMore(EMPTY, e2, CheckOffered(1, 0, 0, OPEN_FRIDAY, false));
    var e3 := e2 + [CheckOffered(1, 0, 0, OPEN_FRIDAY, false)];
    var s3 := s1.(requests := map[1 := ASKING.(phase := Offered)]);
    assert After(EMPTY, e3) == s3;
    OneMore(EMPTY, e3, Lock(1));
    OneMore(EMPTY, e3 + [Lock(1)], Refresh(1));
    var e5 := e3 + [Lock(1)] + [Refresh(1)];
    var s5 := State(map[0 := ROW], map[1 := ASKING.(phase := Refreshed)], map[7 := 1], []);
    assert After(EMPTY, e5) == s5;
    FirstIsWritten(s5);
    OneMore(EMPTY, e5, CheckUnbooked(1, false));
    OneMore(EMPTY, e5 + [CheckUnbooked(1, false)], Write(1, false));
  }

  lemma FirstIsOffered(s: State)
    requires s == State(map[0 := ROW], map[1 := ASKING], map[], [])
    ensures IsOffered(s.table, Memory(ASKING, false), ASKING, 0, 0, OPEN_FRIDAY)
  {
    assert LocalDay(HALF_PAST, 0) == 1 && TimeOfDay(HALF_PAST, 0) == 30 * MINUTE && DayOfWeek(1) == 4;
    assert BookedWindows(s.table, Memory(ASKING, false), 7, Midnight(1, 0), Midnight(1 + HORIZON_DAYS, 0)) == {};
  }

  lemma FirstIsWritten(s: State)
    requires s == State(map[0 := ROW], map[1 := ASKING.(phase := Refreshed)], map[7 := 1], [])
    ensures var s' := Next(s, CheckUnbooked(1, false));
            && Enabled(s', Write(1, false))
            && Next(s', Write(1, false)) == State(map[0 := BOOKED], map[], map[], [Commit(0, Book, 0)])
  {
    var q := ASKING.(phase := Refreshed);
    assert IsUnbooked(s.table, Memory(q, false), q);
    var s' := Next(s, CheckUnbooked(1, false));
    assert s'.requests - {1} == map[];
    assert Drop(s', 1).locks == map[];
  }
}
